/**
 * `list.sort(function(a, b) { return b - a })`: the numeric descending sort
 * the driver applies in place to the port and packet-count columns and that
 * `sortIP` applies to the address codes.
 */
module Sorting {

  predicate SortedDescending(s: seq<int>) {
    forall p, q :: 0 <= p < q < |s| ==> s[p] >= s[q]
  }

  /** Exchanges `a[j - 1]` and `a[j]`. */
  method SwapDown(a: array<int>, j: int)
    requires 0 < j < a.Length
    modifies a
    ensures a[j - 1] == old(a[j]) && a[j] == old(a[j - 1])
    ensures forall k :: 0 <= k < a.Length && k != j - 1 && k != j ==> a[k] == old(a[k])
    ensures multiset(a[..]) == multiset(old(a[..]))
  {
    a[j - 1], a[j] := a[j], a[j - 1];
  }

  /** Sorts `a` in place, largest first, keeping its elements. */
  method SortDescending(a: array<int>)
    modifies a
    ensures SortedDescending(a[..])
    ensures multiset(a[..]) == multiset(old(a[..]))
  {
    for i := 0 to a.Length
      invariant SortedDescending(a[..i])
      invariant multiset(a[..]) == multiset(old(a[..]))
    {
      var j := i;
      while j > 0 && a[j - 1] < a[j]
        invariant 0 <= j <= i
        invariant forall p, q :: 0 <= p < q <= i && p != j && q != j ==> a[p] >= a[q]
        invariant forall q :: j < q <= i ==> a[j] > a[q]
        invariant multiset(a[..]) == multiset(old(a[..]))
      {
        SwapDown(a, j);
        j := j - 1;
      }
    }
  }

  /**
   * A column sorted the way the driver sorts it: copied into an array and
   * sorted there in place, largest first.
   */
  method SortList(list: seq<int>) returns (sorted: seq<int>)
    ensures SortedDescending(sorted)
    ensures |sorted| == |list| && multiset(sorted) == multiset(list)
  {
    var a := new int[|list|](i requires 0 <= i < |list| => list[i]);
    assert a[..] == list;
    SortDescending(a);
    sorted := a[..];
  }

  /** The head of a descending sequence is its largest element. */
  lemma HeadIsLargest(s: seq<int>, x: int)
    requires SortedDescending(s) && x in s
    ensures x <= s[0]
  {
    var k :| 0 <= k < |s| && s[k] == x;
    assert k == 0 || s[0] >= s[k];
  }

  lemma SortedTail(s: seq<int>)
    requires SortedDescending(s) && s != []
    ensures SortedDescending(s[1..])
  {
    forall p, q | 0 <= p < q < |s| - 1 ensures s[1..][p] >= s[1..][q] {
      assert s[1..][p] == s[p + 1] && s[1..][q] == s[q + 1];
    }
  }

  lemma TailMultiset(s: seq<int>)
    requires s != []
    ensures multiset(s[1..]) == multiset(s) - multiset{s[0]}
  {
    assert s == [s[0]] + s[1..];
  }

  /** Two descending orderings of the same elements are the same sequence. */
  lemma {:induction false} SortedUnique(s: seq<int>, t: seq<int>)
    requires SortedDescending(s) && SortedDescending(t)
    requires multiset(s) == multiset(t)
    ensures s == t
  {
    assert |t| == |s| by { assert |multiset(s)| == |multiset(t)|; }
    if s != [] {
      assert s[0] in multiset(t) && t[0] in multiset(s);
      HeadIsLargest(t, s[0]);
      HeadIsLargest(s, t[0]);
      var h := s[0];
      assert t[0] == h;
      TailMultiset(s);
      TailMultiset(t);
      assert multiset(s[1..]) == multiset(t[1..]);
      SortedTail(s);
      SortedTail(t);
      SortedUnique(s[1..], t[1..]);
      assert s == [s[0]] + s[1..] && t == [t[0]] + t[1..];
    }
  }
}
