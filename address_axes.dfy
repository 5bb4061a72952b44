/**
 * The address axes as the driver's comments describe them ("sort the ip
 * address list from max to min", "once sorted each element ... is given a
 * unique y coordinate") against what the driver does: it drops the list
 * `sortIP` returns and lays out the unsorted list.
 */
module AddressAxes {
  import opened Wrappers
  import opened Ipv4
  import opened HashTables
  import opened Dedup
  import opened Sorting
  import opened AddressSort
  import opened AxisLayout
  import opened Flows

  /** Both heights are defined and the first is the higher one. */
  predicate Above(y: Option<real>, z: Option<real>) {
    y.Some? && z.Some? && y.value > z.value
  }

  /** In a list sorted descending, a larger value sits at a smaller index. */
  lemma SortedPosition(codes: seq<int>, i: int, j: int)
    requires SortedDescending(codes)
    requires 0 <= i < |codes| && 0 <= j < |codes| && codes[i] > codes[j]
    ensures i < j
  {
  }

  /** On an axis laid out from a list sorted by code, a larger address is drawn higher. */
  lemma {:induction false} HigherAddressHigher(sorted: seq<string>, a: string, b: string)
    requires SortedDescending(MapSeq(Code, sorted))
    requires a in sorted && b in sorted && Code(a) > Code(b)
    ensures Above(AxisAt(sorted, a), AxisAt(sorted, b))
  {
    var i, j := IndexOf(sorted, a), IndexOf(sorted, b);
    SortedPosition(MapSeq(Code, sorted), i, j);
    AxisAtOrder(sorted, a, b);
  }

  /**
   * The address axis as intended: lay out the list `sortIP` returns, so that
   * the axis runs from the largest code at the top to the smallest at the
   * bottom.
   */
  method SortedAddressAxis(list: seq<string>) returns (sorted: seq<string>, table: HashTable<string, real>)
    ensures fresh(table) && table.Valid()
    ensures AllQuads(list) ==> multiset(sorted) == multiset(list)
    ensures AllQuads(list) && NoDuplicates(list) ==> forall v :: table.GetItem(v) == AxisAt(sorted, v)
    ensures AllQuads(list) && NoDuplicates(list) ==>
      forall a, b :: a in list && b in list && Code(a) > Code(b) ==> Above(table.GetItem(a), table.GetItem(b))
  {
    sorted := SortIp(list);
    var ys;
    table, ys := LayOutAxis(sorted);
    if AllQuads(list) && NoDuplicates(list) {
      SortedAxisOrder(list, sorted);
    }
  }

  /** Every pair of addresses of `list` is drawn in code order on the axis of its sorted copy. */
  lemma SortedAxisOrder(list: seq<string>, sorted: seq<string>)
    requires multiset(sorted) == multiset(list) && SortedDescending(MapSeq(Code, sorted))
    ensures forall a, b :: a in list && b in list && Code(a) > Code(b) ==> Above(AxisAt(sorted, a), AxisAt(sorted, b))
  {
    forall a, b | a in list && b in list && Code(a) > Code(b)
      ensures Above(AxisAt(sorted, a), AxisAt(sorted, b))
    {
      assert a in multiset(sorted) && b in multiset(sorted);
      HigherAddressHigher(sorted, a, b);
    }
  }

  /**
   * As written, the address axis keeps first-occurrence order: when the
   * first record's source address has a smaller code than the second's,
   * the smaller address is drawn above the larger one.
   */
  lemma {:induction false} UnsortedAddressAxis(data: seq<FlowRecord>)
    requires |data| >= 2 && Code(data[0].sip) < Code(data[1].sip)
    ensures Above(AxisAt(FirstOccurrences(SourceColumn(data)), data[0].sip),
                  AxisAt(FirstOccurrences(SourceColumn(data)), data[1].sip))
  {
    var col := SourceColumn(data);
    var list := FirstOccurrences(col);
    FirstOccurrencesSpec(col);
    DedupMembers(list, col);
    var a, b := data[0].sip, data[1].sip;
    assert col[0] == a && col[1] == b;
    assert IndexOf(col, a) == 0 && IndexOf(col, b) == 1;
    var p, q := IndexOf(list, a), IndexOf(list, b);
    assert p < q;
    AxisAtOrder(list, a, b);
  }

  /** The codes of 10.0.0.1 and 10.0.0.2. */
  lemma TenDotCodes()
    ensures Code("10.0.0.1") == 0x0A00_0001 && Code("10.0.0.2") == 0x0A00_0002
  {
    assert DecimalText(10) == "10";
    assert Dotted(10, 0, 0, 1) == "10.0.0.1";
    assert Dotted(10, 0, 0, 2) == "10.0.0.2";
    EncodeDotted(10, 0, 0, 1);
    EncodeDotted(10, 0, 0, 2);
  }

  /**
   * The four-axis `sortIP` on the distinct sources of two records (so the
   * stray index is 1): the larger code stays an undecoded number and the
   * second slot, decoded twice, ends up as "0.0.0.0". For 10.0.0.1 and
   * 10.0.0.2 (`TenDotCodes`) that is the number 167772162 and "0.0.0.0".
   */
  method StrayDecodeOfTwo(a: string, b: string) returns (res: seq<Slot>)
    requires Code(a) < Code(b)
    ensures res == [Number(Code(b)), Text("0.0.0.0")]
  {
    ghost var codes;
    res, codes := SortIpAsWritten([a, b], 1);
    TwoCodesSorted(Code(a), Code(b), codes, MapSeq(Code, [a, b]));
    LostSlot(res, Code(b));
  }

  /** The slot decoded twice reads "0.0.0.0". */
  lemma LostSlot(res: seq<Slot>, c: int)
    requires |res| == 2 && res[0] == Number(c) && res[1] == Text(IntToIp(0))
    ensures res == [Number(c), Text("0.0.0.0")]
  {
    ZeroAddress();
  }

  /** Sorting two distinct codes descending puts the larger first. */
  lemma TwoCodesSorted(x: int, y: int, codes: seq<int>, encoded: seq<int>)
    requires x < y && encoded == [x, y]
    requires SortedDescending(codes) && multiset(codes) == multiset(encoded)
    ensures codes == [y, x]
  {
    assert multiset(encoded) == multiset([y, x]);
    SortedUnique(codes, [y, x]);
  }

  /**
   * Two records whose sources are 10.0.0.1 and then 10.0.0.2: the driver as
   * written draws 10.0.0.1 at 0.175 and 10.0.0.2 at -2.45, the reverse of
   * the max-to-min order the intended layout gives.
   */
  lemma TwoSourcesInverted()
    ensures var data := [FlowRecord("10.0.0.1", "10.0.0.9", 80, 6), FlowRecord("10.0.0.2", "10.0.0.9", 80, 6)];
      && AxisAt(FirstOccurrences(SourceColumn(data)), "10.0.0.1") == Some(0.175)
      && AxisAt(FirstOccurrences(SourceColumn(data)), "10.0.0.2") == Some(-2.45)
  {
    var data := [FlowRecord("10.0.0.1", "10.0.0.9", 80, 6), FlowRecord("10.0.0.2", "10.0.0.9", 80, 6)];
    var col := SourceColumn(data);
    assert col == ["10.0.0.1", "10.0.0.2"];
    FirstOccurrencesOfDistinct(col, 0);
    assert IndexOf(col, "10.0.0.2") == 1;
  }
}
