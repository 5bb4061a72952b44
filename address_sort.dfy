/**
 * `sortIP`: encode every address with `ipToInt`, sort the codes descending,
 * decode them back with `intToIP`. The three-axis program does this; the
 * four-axis program decodes through a stray index (see `SortIpAsWritten`).
 */
module AddressSort {
  import opened Wrappers
  import opened Ipv4
  import opened Sorting
  import opened HashTables
  import opened Dedup

  predicate AllQuads(list: seq<string>) {
    forall i :: 0 <= i < |list| ==> IsDottedQuad(list[i])
  }

  /**
   * The number `ipToInt` gives an address, as the sort's comparator sees it
   * (0 stands in for NaN). A canonical address gets a signed 32-bit code
   * that `intToIP` turns back into the address.
   */
  function Code(s: string): (r: int)
    ensures IpToInt(s).None? ==> r == 0
    ensures IsDottedQuad(s) ==> -TwoTo31 <= r < TwoTo31 && IntToIp(r) == s
  {
    match IpToInt(s)
    case Some(v) =>
      if IsDottedQuad(s) then DottedQuadRoundTrip(s); v else v
    case None => 0
  }

  function MapSeq<A, B>(f: A -> B, s: seq<A>): (r: seq<B>)
    ensures |r| == |s| && forall i :: 0 <= i < |s| ==> r[i] == f(s[i])
  {
    seq(|s|, i requires 0 <= i < |s| => f(s[i]))
  }

  lemma MapSeqConcat<A, B>(f: A -> B, a: seq<A>, b: seq<A>)
    ensures MapSeq(f, a + b) == MapSeq(f, a) + MapSeq(f, b)
  {
  }

  /** Mapping a function over two orderings of the same elements gives two orderings of the same images. */
  lemma {:induction false} MapSeqPermutation<A, B>(f: A -> B, x: seq<A>, y: seq<A>)
    requires multiset(x) == multiset(y)
    ensures multiset(MapSeq(f, x)) == multiset(MapSeq(f, y))
    decreases |x|
  {
    if x != [] {
      var h := x[0];
      assert h in multiset(y);
      var k :| 0 <= k < |y| && y[k] == h;
      var y' := y[..k] + y[k + 1..];
      assert y == y[..k] + [h] + y[k + 1..];
      assert x == [h] + x[1..];
      assert multiset(y) == multiset(y[..k]) + multiset{h} + multiset(y[k + 1..]);
      assert multiset(y') == multiset(y[..k]) + multiset(y[k + 1..]);
      assert multiset(x) == multiset{h} + multiset(x[1..]);
      assert multiset(x[1..]) == multiset(x) - multiset{h};
      assert multiset(y') == multiset(y) - multiset{h};
      MapSeqPermutation(f, x[1..], y');
      MapSeqConcat(f, [h], x[1..]);
      MapSeqConcat(f, y[..k] + [h], y[k + 1..]);
      MapSeqConcat(f, y[..k], [h]);
      MapSeqConcat(f, y[..k], y[k + 1..]);
    }
  }

  /** Every code of a canonical address decodes back to it. */
  lemma DecodeCodes(list: seq<string>)
    requires AllQuads(list)
    ensures MapSeq(IntToIp, MapSeq(Code, list)) == list
  {
    forall i | 0 <= i < |list| ensures IntToIp(Code(list[i])) == list[i] {
      DottedQuadRoundTrip(list[i]);
    }
  }

  /** A reordered code of a canonical address is still a signed 32-bit number. */
  lemma CodeInRange(list: seq<string>, codes: seq<int>, k: int)
    requires AllQuads(list)
    requires multiset(codes) == multiset(MapSeq(Code, list))
    requires 0 <= k < |codes|
    ensures -TwoTo31 <= codes[k] < TwoTo31
  {
    var c := codes[k];
    assert c in multiset(codes);
    assert c in MapSeq(Code, list);
    var m :| 0 <= m < |list| && MapSeq(Code, list)[m] == c;
    DottedQuadRoundTrip(list[m]);
  }

  lemma CodeOfDecoded(v: int)
    requires -TwoTo31 <= v < TwoTo31
    ensures IsDottedQuad(IntToIp(v)) && Code(IntToIp(v)) == v
  {
    NumberRoundTrip(v);
  }

  /** Decoding any reordering of the codes of canonical addresses gives back a reordering of the addresses. */
  lemma DecodeSortedCodes(list: seq<string>, codes: seq<int>)
    requires AllQuads(list)
    requires multiset(codes) == multiset(MapSeq(Code, list))
    ensures multiset(MapSeq(IntToIp, codes)) == multiset(list)
    ensures AllQuads(MapSeq(IntToIp, codes))
    ensures MapSeq(Code, MapSeq(IntToIp, codes)) == codes
  {
    var res := MapSeq(IntToIp, codes);
    DecodeCodes(list);
    MapSeqPermutation(IntToIp, codes, MapSeq(Code, list));
    forall k | 0 <= k < |codes| ensures IsDottedQuad(res[k]) && Code(res[k]) == codes[k] {
      CodeInRange(list, codes, k);
      CodeOfDecoded(codes[k]);
    }
  }

  /**
   * The encoding loop of `sortIP`, `res[i] = ipToInt(list[i])` for every
   * index, with the encoder passed in (`sortIP` passes `Code`).
   */
  method EncodeAll(list: seq<string>, encode: string -> int) returns (codes: array<int>)
    ensures fresh(codes)
    ensures codes[..] == MapSeq(encode, list)
  {
    codes := new int[|list|];
    for i := 0 to |list|
      invariant forall k :: 0 <= k < i ==> codes[k] == encode(list[k])
    {
      codes[i] := encode(list[i]);
    }
  }

  /** The decoding loop of the three-axis `sortIP`: `res[j] = intToIP(res[j])` for every index. */
  method DecodeAll(codes: array<int>) returns (res: seq<string>)
    ensures res == MapSeq(IntToIp, codes[..])
  {
    res := [];
    for j := 0 to codes.Length
      invariant |res| == j
      invariant forall k :: 0 <= k < j ==> res[k] == IntToIp(codes[k])
    {
      res := res + [IntToIp(codes[j])];
    }
  }

  /**
   * The three-axis `sortIP`: a new list holding the same addresses, ordered
   * from the largest signed code to the smallest.
   */
  method SortIp(list: seq<string>) returns (res: seq<string>)
    ensures |res| == |list|
    ensures AllQuads(list) ==> multiset(res) == multiset(list)
    ensures AllQuads(list) ==> AllQuads(res) && SortedDescending(MapSeq(Code, res))
    ensures AllQuads(list) && NoDuplicates(list) ==> NoDuplicates(res)
  {
    var codes := EncodeAll(list, Code);
    SortDescending(codes);
    res := DecodeAll(codes);
    if AllQuads(list) {
      DecodeSortedCodes(list, codes[..]);
      if NoDuplicates(list) {
        DistinctPermutation(list, res);
      }
    }
  }

  /** A slot of the four-axis `sortIP`'s result array. */
  datatype Slot = Hole | Number(n: int) | Text(s: string)

  /**
   * The 32-bit value `>>` and `&` see in a slot: a hole (`undefined`) and
   * dotted text both convert to NaN, which those operators treat as 0.
   */
  function SlotNumber(x: Slot): int {
    match x
    case Number(n) => n
    case _ => 0
  }

  /** `res[k]`, `undefined` past the end. */
  function SlotAt(res: seq<Slot>, k: nat): Slot {
    if k < |res| then res[k] else Hole
  }

  /** `res[k] = x`, growing the array with holes when `k` is past the end. */
  function StoreSlot(res: seq<Slot>, k: nat, x: Slot): (r: seq<Slot>)
    ensures |r| == if k < |res| then |res| else k + 1
    ensures r[k] == x
    ensures forall i :: 0 <= i < |res| && i != k ==> r[i] == res[i]
    ensures forall i :: |res| <= i < k ==> r[i] == Hole
  {
    if k < |res| then res[k := x] else res + seq(k - |res|, _ => Hole) + [x]
  }

  lemma ZeroAddress()
    ensures IntToIp(0) == "0.0.0.0"
  {
    assert Pow2(8) == 0x100 && Pow2(16) == 0x1_0000 && Pow2(24) == 0x100_0000;
  }

  /**
   * The encoding loop and the sort of `sortIP`: the codes of the list, from
   * the largest to the smallest (the encoder is passed in; `sortIP` passes
   * `Code`).
   */
  method SortedCodes(list: seq<string>, encode: string -> int) returns (codes: seq<int>)
    ensures |codes| == |list|
    ensures SortedDescending(codes) && multiset(codes) == multiset(MapSeq(encode, list))
  {
    var a := EncodeAll(list, encode);
    SortDescending(a);
    codes := a[..];
  }

  /**
   * The decoding loop of the four-axis `sortIP`, started on the array of
   * sorted codes: `|codes|` times, the slot at `stray` is replaced by the
   * decoding of what it holds (the decoder is passed in; `sortIP` passes
   * `IntToIp`). From the second pass on the slot holds text, which the bit
   * operators read as 0, so it ends as the decoding of 0.
   */
  method DecodeAtStray(codes: seq<int>, stray: nat, decode: int -> string) returns (res: seq<Slot>)
    ensures |codes| == 0 ==> res == []
    ensures |codes| > 0 ==> |res| == if stray < |codes| then |codes| else stray + 1
    ensures forall k :: 0 <= k < |codes| && k != stray ==> res[k] == Number(codes[k])
    ensures forall k :: |codes| <= k < stray ==> SlotAt(res, k) == Hole
    ensures |codes| == 1 && stray == 0 ==> res == [Text(decode(codes[0]))]
    ensures |codes| == 1 && stray > 0 ==> res[stray] == Text(decode(0))
    ensures |codes| >= 2 ==> res[stray] == Text(decode(0))
  {
    var n := |codes|;
    res := seq(n, k requires 0 <= k < n => Number(codes[k]));
    for j := 0 to n
      invariant j == 0 ==> |res| == n && forall k :: 0 <= k < n ==> res[k] == Number(codes[k])
      invariant j > 0 ==> |res| == if stray < n then n else stray + 1
      invariant j == 1 ==> res[stray] == Text(decode(if stray < n then codes[stray] else 0))
      invariant j > 0 ==> res[stray].Text?
      invariant j >= 2 ==> res[stray] == Text(decode(0))
      invariant forall k :: 0 <= k < n && k != stray ==> res[k] == Number(codes[k])
      invariant forall k :: n <= k < |res| && k != stray ==> res[k] == Hole
    {
      var current := SlotNumber(SlotAt(res, stray));
      res := StoreSlot(res, stray, Text(decode(current)));
    }
  }

  /**
   * The four-axis `sortIP` as written: its decode loop indexes the result
   * with `i` (the global left behind by `readData`'s `for (i in flows)`,
   * passed here as `stray`) instead of its own counter, so it rewrites one
   * slot `|list|` times and leaves every other code undecoded. `codes` is
   * the sorted array of codes the decode loop starts from; `IntToIp(0)` is
   * "0.0.0.0" (`ZeroAddress`).
   */
  method SortIpAsWritten(list: seq<string>, stray: nat) returns (res: seq<Slot>, ghost codes: seq<int>)
    ensures |codes| == |list|
    ensures SortedDescending(codes) && multiset(codes) == multiset(MapSeq(Code, list))
    ensures |list| == 0 ==> res == []
    ensures |list| > 0 ==> |res| == if stray < |list| then |list| else stray + 1
    ensures forall k :: 0 <= k < |list| && k != stray ==> res[k] == Number(codes[k])
    ensures forall k :: |list| <= k < stray ==> SlotAt(res, k) == Hole
    ensures |list| == 1 && stray == 0 ==> res == [Text(IntToIp(Code(list[0])))]
    ensures |list| == 1 && stray > 0 ==> res[stray] == Text(IntToIp(0))
    ensures |list| >= 2 ==> res[stray] == Text(IntToIp(0))
  {
    var sorted := SortedCodes(list, Code);
    codes := sorted;
    res := DecodeAtStray(sorted, stray, IntToIp);
    if |list| == 1 {
      SingleCode(sorted, Code(list[0]));
    }
  }

  /** The only ordering of one code. */
  /**
   * The address whose code the sort puts at the stray slot is lost: when the
   * stray slot ends as the decoding of 0 and every other slot keeps its code
   * undecoded, the text of that address appears nowhere in the result
   * (unless its code is 0, that is, the address is "0.0.0.0").
   */
  lemma {:induction false} StrayAddressLost(res: seq<Slot>, codes: seq<int>, stray: nat)
    requires stray < |codes| == |res|
    requires forall k :: 0 <= k < |codes| && k != stray ==> res[k] == Number(codes[k])
    requires res[stray] == Text(IntToIp(0))
    requires -TwoTo31 <= codes[stray] < TwoTo31 && codes[stray] != 0
    ensures Text(IntToIp(codes[stray])) !in res
  {
    IntToIpInjective(codes[stray], 0);
    forall k | 0 <= k < |res|
      ensures res[k] != Text(IntToIp(codes[stray]))
    {
      if k != stray {
        assert res[k].Number?;
      }
    }
  }

  lemma SingleCode(codes: seq<int>, c: int)
    requires multiset(codes) == multiset([c])
    ensures codes == [c]
  {
    assert |codes| == |multiset(codes)|;
    assert codes[0] in multiset(codes);
  }
}
