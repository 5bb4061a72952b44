/**
 * The four-axis graph: source address, destination address, destination port
 * and packet length. `readData` splits the flow records into columns, every
 * column becomes an axis, and `Lines` draws one polyline per record across
 * the four axes.
 */
module FourParam {
  import opened HashTables
  import opened Dedup
  import opened Sorting
  import opened AddressSort
  import opened AxisLayout
  import opened Polylines
  import opened Flows

  /** The global state the script keeps between calls: every line `Lines` has built. */
  class Globals {
    var lines: seq<Polyline>

    constructor ()
      ensures lines == []
    {
      lines := [];
    }
  }

  /** One record's four plotted values, `flow[0]` to `flow[3]`. */
  datatype Flow = Flow(src: string, dst: string, port: int, pack: int)

  /** `flowing`: the four values as one array, in axis order. */
  function Flowing(valSrcIP: string, valDestIP: string, valDestPort: int, valPack: int): (flow: Flow)
    ensures flow.src == valSrcIP && flow.dst == valDestIP && flow.port == valDestPort && flow.pack == valPack
  {
    Flow(valSrcIP, valDestIP, valDestPort, valPack)
  }

  /**
   * `readData`: one `flowing` tuple per record, in record order and
   * unfiltered, and the four columns each reduced to its first occurrences.
   */
  method ReadData(flows: seq<FlowRecord>)
    returns (fixedFlow: seq<Flow>, srcIPArr: seq<string>, destIPArr: seq<string>,
             destPortArr: seq<int>, packArr: seq<int>)
    ensures |fixedFlow| == |flows|
    ensures forall i :: 0 <= i < |flows| ==>
      fixedFlow[i] == Flow(flows[i].sip, flows[i].dip, flows[i].dport, flows[i].packets)
    ensures srcIPArr == FirstOccurrences(SourceColumn(flows)) && DedupOf(srcIPArr, SourceColumn(flows))
    ensures destIPArr == FirstOccurrences(DestinationColumn(flows)) && DedupOf(destIPArr, DestinationColumn(flows))
    ensures destPortArr == FirstOccurrences(PortColumn(flows)) && DedupOf(destPortArr, PortColumn(flows))
    ensures packArr == FirstOccurrences(PacketColumn(flows)) && DedupOf(packArr, PacketColumn(flows))
  {
    srcIPArr, destIPArr, destPortArr, packArr, fixedFlow := [], [], [], [], [];
    for i := 0 to |flows|
      invariant |fixedFlow| == i
      invariant srcIPArr == SourceColumn(flows[..i]) && destIPArr == DestinationColumn(flows[..i])
      invariant destPortArr == PortColumn(flows[..i]) && packArr == PacketColumn(flows[..i])
      invariant forall k :: 0 <= k < i ==>
        fixedFlow[k] == Flow(flows[k].sip, flows[k].dip, flows[k].dport, flows[k].packets)
    {
      srcIPArr := srcIPArr + [flows[i].sip];
      destIPArr := destIPArr + [flows[i].dip];
      destPortArr := destPortArr + [flows[i].dport];
      packArr := packArr + [flows[i].packets];
      fixedFlow := fixedFlow + [Flowing(srcIPArr[i], destIPArr[i], destPortArr[i], packArr[i])];
    }
    assert flows[..|flows|] == flows;
    FirstOccurrencesSpec(srcIPArr);
    FirstOccurrencesSpec(destIPArr);
    FirstOccurrencesSpec(destPortArr);
    FirstOccurrencesSpec(packArr);
    srcIPArr := FirstOccurrences(srcIPArr);
    destIPArr := FirstOccurrences(destIPArr);
    destPortArr := FirstOccurrences(destPortArr);
    packArr := FirstOccurrences(packArr);
  }

  /**
   * `Lines`: a polyline through the four axes at x = -4, -1.5, 1.5 and 4,
   * each vertex at the y its axis table holds for the flow's value; the
   * colour loop pairs the colours; the line is appended to the global
   * `lines`. `draws` stands for the two colours `Math.random` produces.
   */
  method Lines(g: Globals, flow: Flow, srcIP: HashTable<string, real>, destIP: HashTable<string, real>,
               destPort: HashTable<int, real>, pack: HashTable<int, real>, draws: seq<Color>)
    returns (line: Polyline)
    requires |draws| == 2
    modifies g
    ensures line.vertices == [Vertex(-4.0, srcIP.GetItem(flow.src)), Vertex(-1.5, destIP.GetItem(flow.dst)),
                              Vertex(1.5, destPort.GetItem(flow.port)), Vertex(4.0, pack.GetItem(flow.pack))]
    ensures line.colors == [draws[0], draws[0], draws[1], draws[1]]
    ensures g.lines == old(g.lines) + [line]
  {
    var vertices := [Vertex(-4.0, srcIP.GetItem(flow.src)), Vertex(-1.5, destIP.GetItem(flow.dst)),
                     Vertex(1.5, destPort.GetItem(flow.port)), Vertex(4.0, pack.GetItem(flow.pack))];
    var colors := PairColors(|vertices|, draws);
    line := Polyline(vertices, colors);
    g.lines := g.lines + [line];
  }

  /**
   * How the graph draws record `r` once the four axes hold `srcs`, `dsts`,
   * `ports` and `packs`: each vertex at its axis' x and at the height the
   * axis gives the record's value, coloured by the record's two draws.
   */
  predicate Plots(line: Polyline, r: FlowRecord, srcs: seq<string>, dsts: seq<string>,
                  ports: seq<int>, packs: seq<int>, c0: Color, c1: Color)
  {
    && line.vertices == [Vertex(-4.0, AxisAt(srcs, r.sip)), Vertex(-1.5, AxisAt(dsts, r.dip)),
                         Vertex(1.5, AxisAt(ports, r.dport)), Vertex(4.0, AxisAt(packs, r.packets))]
    && line.colors == [c0, c0, c1, c1]
  }

  /**
   * The per-record loop of the driver: `Lines` for every `fixedFlow` tuple,
   * with tables that hold the layout of the four axis lists.
   */
  method DrawFlows(g: Globals, data: seq<FlowRecord>, fixedFlow: seq<Flow>,
                   srcs: seq<string>, dsts: seq<string>, ports: seq<int>, packs: seq<int>,
                   srcIP: HashTable<string, real>, destIP: HashTable<string, real>,
                   destPort: HashTable<int, real>, pack: HashTable<int, real>, draws: seq<Color>)
    returns (scene: seq<Polyline>)
    requires |fixedFlow| == |data| && |draws| == 2 * |data|
    requires forall i :: 0 <= i < |data| ==>
      fixedFlow[i] == Flow(data[i].sip, data[i].dip, data[i].dport, data[i].packets)
    requires forall v :: srcIP.GetItem(v) == AxisAt(srcs, v)
    requires forall v :: destIP.GetItem(v) == AxisAt(dsts, v)
    requires forall v :: destPort.GetItem(v) == AxisAt(ports, v)
    requires forall v :: pack.GetItem(v) == AxisAt(packs, v)
    modifies g
    ensures |scene| == |data| && g.lines == old(g.lines) + scene
    ensures forall i :: 0 <= i < |data| ==>
      Plots(scene[i], data[i], srcs, dsts, ports, packs, draws[2 * i], draws[2 * i + 1])
  {
    scene := [];
    for i := 0 to |data|
      modifies g
      invariant |scene| == i && g.lines == old(g.lines) + scene
      invariant forall k :: 0 <= k < i ==>
        Plots(scene[k], data[k], srcs, dsts, ports, packs, draws[2 * k], draws[2 * k + 1])
    {
      var result := Lines(g, fixedFlow[i], srcIP, destIP, destPort, pack, draws[2 * i..2 * i + 2]);
      scene := scene + [result];
    }
  }

  /**
   * One address axis of the driver as written: `sortIP(list)` is called and
   * its result dropped, so the values are laid out in the order they come.
   */
  method AddressAxis(list: seq<string>, stray: nat) returns (table: HashTable<string, real>)
    requires NoDuplicates(list)
    ensures fresh(table) && table.Valid() && table.length == |list|
    ensures forall v :: table.GetItem(v) == AxisAt(list, v)
  {
    var discarded;
    ghost var codes;
    discarded, codes := SortIpAsWritten(list, stray);
    var ys;
    table, ys := LayOutAxis(list);
  }

  /**
   * The port and packet axes: `list.sort((a, b) => b - a)` in place, then
   * the layout of the sorted list.
   */
  method CountAxis(list: seq<int>) returns (sorted: seq<int>, table: HashTable<int, real>)
    requires NoDuplicates(list)
    ensures SortedDescending(sorted) && multiset(sorted) == multiset(list)
    ensures fresh(table) && table.Valid() && table.length == |list|
    ensures forall v :: table.GetItem(v) == AxisAt(sorted, v)
  {
    sorted := SortList(list);
    DistinctPermutation(list, sorted);
    var ys;
    table, ys := LayOutAxis(sorted);
  }

  /**
   * The driver as written: read the records, call `sortIP` on both address
   * lists but keep them in first-occurrence order (its result is dropped),
   * sort the port and packet lists descending, lay out the four axes and
   * draw every record. `draws` holds two colours per record.
   */
  method Render(g: Globals, data: seq<FlowRecord>, draws: seq<Color>)
    returns (scene: seq<Polyline>, srcIPList: seq<string>, destIPList: seq<string>,
             destPortList: seq<int>, packList: seq<int>)
    requires |draws| == 2 * |data|
    modifies g
    ensures srcIPList == FirstOccurrences(SourceColumn(data))
    ensures destIPList == FirstOccurrences(DestinationColumn(data))
    ensures SortedDescending(destPortList) && multiset(destPortList) == multiset(FirstOccurrences(PortColumn(data)))
    ensures SortedDescending(packList) && multiset(packList) == multiset(FirstOccurrences(PacketColumn(data)))
    ensures |scene| == |data| && g.lines == old(g.lines) + scene
    ensures forall i :: 0 <= i < |data| ==>
      Plots(scene[i], data[i], srcIPList, destIPList, destPortList, packList, draws[2 * i], draws[2 * i + 1])
  {
    var fixedFlow, srcs, dsts, ports, packs := ReadData(data);
    // `sortIP` decodes through the global `i` that `readData`'s loop leaves behind
    var stray := if |data| == 0 then 0 else |data| - 1;
    srcIPList, destIPList := srcs, dsts;
    var srcIP := AddressAxis(srcIPList, stray);
    var destIP := AddressAxis(destIPList, stray);
    var destPort, pack;
    destPortList, destPort := CountAxis(ports);
    packList, pack := CountAxis(packs);
    scene := DrawFlows(g, data, fixedFlow, srcIPList, destIPList, destPortList, packList,
                       srcIP, destIP, destPort, pack, draws);
  }
}
