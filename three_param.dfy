/**
 * The three-axis graph: source address, destination address and destination
 * port. The same pipeline as the four-axis graph without the packet axis,
 * with the element-by-element `sortIP` and without the global list of lines.
 */
module ThreeParam {
  import opened HashTables
  import opened Dedup
  import opened Sorting
  import opened AddressSort
  import opened AxisLayout
  import opened Polylines
  import opened Flows

  /** One record's three plotted values, `flow[0]` to `flow[2]`. */
  datatype Flow = Flow(src: string, dst: string, port: int)

  /** `flowing`: the three values as one array, in axis order. */
  function Flowing(valSrcIP: string, valDestIP: string, valDestPort: int): (flow: Flow)
    ensures flow.src == valSrcIP && flow.dst == valDestIP && flow.port == valDestPort
  {
    Flow(valSrcIP, valDestIP, valDestPort)
  }

  /**
   * `readData`: one `flowing` tuple per record, in record order and
   * unfiltered, and the three columns each reduced to its first occurrences.
   */
  method ReadData(flows: seq<FlowRecord>)
    returns (fixedFlow: seq<Flow>, srcIPArr: seq<string>, destIPArr: seq<string>, destPortArr: seq<int>)
    ensures |fixedFlow| == |flows|
    ensures forall i :: 0 <= i < |flows| ==> fixedFlow[i] == Flow(flows[i].sip, flows[i].dip, flows[i].dport)
    ensures srcIPArr == FirstOccurrences(SourceColumn(flows)) && DedupOf(srcIPArr, SourceColumn(flows))
    ensures destIPArr == FirstOccurrences(DestinationColumn(flows)) && DedupOf(destIPArr, DestinationColumn(flows))
    ensures destPortArr == FirstOccurrences(PortColumn(flows)) && DedupOf(destPortArr, PortColumn(flows))
  {
    srcIPArr, destIPArr, destPortArr, fixedFlow := [], [], [], [];
    for i := 0 to |flows|
      invariant |fixedFlow| == i
      invariant srcIPArr == SourceColumn(flows[..i]) && destIPArr == DestinationColumn(flows[..i])
      invariant destPortArr == PortColumn(flows[..i])
      invariant forall k :: 0 <= k < i ==> fixedFlow[k] == Flow(flows[k].sip, flows[k].dip, flows[k].dport)
    {
      srcIPArr := srcIPArr + [flows[i].sip];
      destIPArr := destIPArr + [flows[i].dip];
      destPortArr := destPortArr + [flows[i].dport];
      fixedFlow := fixedFlow + [Flowing(srcIPArr[i], destIPArr[i], destPortArr[i])];
    }
    assert flows[..|flows|] == flows;
    FirstOccurrencesSpec(srcIPArr);
    FirstOccurrencesSpec(destIPArr);
    FirstOccurrencesSpec(destPortArr);
    srcIPArr := FirstOccurrences(srcIPArr);
    destIPArr := FirstOccurrences(destIPArr);
    destPortArr := FirstOccurrences(destPortArr);
  }

  /**
   * `Lines`: a polyline through the three axes at x = -4, 0 and 4, each
   * vertex at the y its axis table holds for the flow's value. The colour
   * loop runs for i = 0 and i = 2, so it writes four colours for the three
   * vertices. `draws` stands for the two colours `Math.random` produces.
   */
  method Lines(flow: Flow, srcIP: HashTable<string, real>, destIP: HashTable<string, real>,
               destPort: HashTable<int, real>, draws: seq<Color>)
    returns (line: Polyline)
    requires |draws| == 2
    ensures line.vertices == [Vertex(-4.0, srcIP.GetItem(flow.src)), Vertex(0.0, destIP.GetItem(flow.dst)),
                              Vertex(4.0, destPort.GetItem(flow.port))]
    ensures line.colors == [draws[0], draws[0], draws[1], draws[1]]
  {
    var vertices := [Vertex(-4.0, srcIP.GetItem(flow.src)), Vertex(0.0, destIP.GetItem(flow.dst)),
                     Vertex(4.0, destPort.GetItem(flow.port))];
    var colors := PairColors(|vertices|, draws);
    line := Polyline(vertices, colors);
  }

  /**
   * How the graph draws record `r` once the three axes hold `srcs`, `dsts`
   * and `ports`: each vertex at its axis' x and at the height the axis gives
   * the record's value, coloured by the record's two draws.
   */
  predicate Plots(line: Polyline, r: FlowRecord, srcs: seq<string>, dsts: seq<string>, ports: seq<int>,
                  c0: Color, c1: Color)
  {
    && line.vertices == [Vertex(-4.0, AxisAt(srcs, r.sip)), Vertex(0.0, AxisAt(dsts, r.dip)),
                         Vertex(4.0, AxisAt(ports, r.dport))]
    && line.colors == [c0, c0, c1, c1]
  }

  /** The per-record loop of the driver: `Lines` for every `fixedFlow` tuple. */
  method DrawFlows(data: seq<FlowRecord>, fixedFlow: seq<Flow>, srcs: seq<string>, dsts: seq<string>,
                   ports: seq<int>, srcIP: HashTable<string, real>, destIP: HashTable<string, real>,
                   destPort: HashTable<int, real>, draws: seq<Color>)
    returns (scene: seq<Polyline>)
    requires |fixedFlow| == |data| && |draws| == 2 * |data|
    requires forall i :: 0 <= i < |data| ==> fixedFlow[i] == Flow(data[i].sip, data[i].dip, data[i].dport)
    requires forall v :: srcIP.GetItem(v) == AxisAt(srcs, v)
    requires forall v :: destIP.GetItem(v) == AxisAt(dsts, v)
    requires forall v :: destPort.GetItem(v) == AxisAt(ports, v)
    ensures |scene| == |data|
    ensures forall i :: 0 <= i < |data| ==>
      Plots(scene[i], data[i], srcs, dsts, ports, draws[2 * i], draws[2 * i + 1])
  {
    scene := [];
    for i := 0 to |data|
      invariant |scene| == i
      invariant forall k :: 0 <= k < i ==> Plots(scene[k], data[k], srcs, dsts, ports, draws[2 * k], draws[2 * k + 1])
    {
      var result := Lines(fixedFlow[i], srcIP, destIP, destPort, draws[2 * i..2 * i + 2]);
      scene := scene + [result];
    }
  }

  /**
   * One address axis of the driver as written: `sortIP(list)` is called and
   * its result dropped, so the values are laid out in the order they come.
   */
  method AddressAxis(list: seq<string>) returns (table: HashTable<string, real>)
    requires NoDuplicates(list)
    ensures fresh(table) && table.Valid() && table.length == |list|
    ensures forall v :: table.GetItem(v) == AxisAt(list, v)
  {
    var discarded := SortIp(list);
    var ys;
    table, ys := LayOutAxis(list);
  }

  /** The port axis: `destPortList.sort((a, b) => b - a)` in place, then the layout of the sorted list. */
  method PortAxis(list: seq<int>) returns (sorted: seq<int>, table: HashTable<int, real>)
    requires NoDuplicates(list)
    ensures SortedDescending(sorted) && multiset(sorted) == multiset(list)
    ensures fresh(table) && table.Valid() && table.length == |list|
    ensures forall v :: table.GetItem(v) == AxisAt(sorted, v)
  {
    sorted := SortList(list);
    DistinctPermutation(list, sorted);
    var ys;
    table, ys := LayOutAxis(sorted);
  }

  /**
   * The driver as written: read the records, call `sortIP` on both address
   * lists but keep them in first-occurrence order (its result is dropped),
   * sort the port list descending, lay out the three axes and draw every
   * record. `draws` holds two colours per record.
   */
  method Render(data: seq<FlowRecord>, draws: seq<Color>)
    returns (scene: seq<Polyline>, srcIPList: seq<string>, destIPList: seq<string>, destPortList: seq<int>)
    requires |draws| == 2 * |data|
    ensures srcIPList == FirstOccurrences(SourceColumn(data))
    ensures destIPList == FirstOccurrences(DestinationColumn(data))
    ensures SortedDescending(destPortList) && multiset(destPortList) == multiset(FirstOccurrences(PortColumn(data)))
    ensures |scene| == |data|
    ensures forall i :: 0 <= i < |data| ==>
      Plots(scene[i], data[i], srcIPList, destIPList, destPortList, draws[2 * i], draws[2 * i + 1])
  {
    var fixedFlow, srcs, dsts, ports := ReadData(data);
    srcIPList, destIPList := srcs, dsts;
    var srcIP := AddressAxis(srcIPList);
    var destIP := AddressAxis(destIPList);
    var destPort;
    destPortList, destPort := PortAxis(ports);
    scene := DrawFlows(data, fixedFlow, srcIPList, destIPList, destPortList, srcIP, destIP, destPort, draws);
  }
}
