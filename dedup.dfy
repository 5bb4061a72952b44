/**
 * The column filter `list.filter((item, index, a) => a.indexOf(item) == index)`:
 * it keeps an element exactly where it occurs for the first time.
 */
module Dedup {
  /** True when no element of `s` occurs twice. */
  predicate NoDuplicates<T(==)>(s: seq<T>) {
    forall i, j :: 0 <= i < j < |s| ==> s[i] != s[j]
  }

  /** `s.indexOf(x)`: the first index holding `x`, or -1. */
  function IndexOf<T(==)>(s: seq<T>, x: T): (r: int)
    ensures r == -1 <==> x !in s
    ensures 0 <= r ==> r < |s| && s[r] == x && forall j :: 0 <= j < r ==> s[j] != x
    ensures -1 <= r
  {
    if s == [] then -1
    else if s[0] == x then 0
    else
      var r := IndexOf(s[1..], x);
      if r == -1 then -1 else r + 1
  }

  /** The filter run over the indices `k..|s|` of `s`. */
  function FilterFrom<T(==)>(s: seq<T>, k: nat): seq<T>
    requires k <= |s|
    decreases |s| - k
  {
    if k == |s| then []
    else (if IndexOf(s, s[k]) == k then [s[k]] else []) + FilterFrom(s, k + 1)
  }

  /**
   * The deduplicated column, in first-occurrence order: it keeps every value
   * of the column and adds none.
   */
  function FirstOccurrences<T(==)>(s: seq<T>): (r: seq<T>)
    ensures forall i :: 0 <= i < |r| ==> r[i] in s
    ensures forall i :: 0 <= i < |s| ==> s[i] in r
  {
    var r := FilterFrom(s, 0);
    assert forall x | x in r :: x in s by {
      forall x | x in r ensures x in s {
        FilterFromMembers(s, 0);
        assert IndexOf(s, x) >= 0;
      }
    }
    assert forall x | x in s :: x in r by {
      forall x | x in s ensures x in r {
        FilterFromMembers(s, 0);
        assert IndexOf(s, x) >= 0;
      }
    }
    r
  }

  /** What the filter keeps from index `k` on: exactly the elements first met at or after `k`. */
  lemma {:induction false} FilterFromMembers<T>(s: seq<T>, k: nat)
    requires k <= |s|
    ensures forall x :: x in FilterFrom(s, k) <==> x in s && IndexOf(s, x) >= k
    decreases |s| - k
  {
    if k < |s| {
      FilterFromMembers(s, k + 1);
      var rest := FilterFrom(s, k + 1);
      if IndexOf(s, s[k]) == k {
        assert FilterFrom(s, k) == [s[k]] + rest;
      } else {
        assert FilterFrom(s, k) == rest;
      }
    }
  }

  /** The elements the filter keeps from index `k` on are listed by strictly increasing first index. */
  lemma {:induction false} FilterFromOrder<T>(s: seq<T>, k: nat)
    requires k <= |s|
    ensures forall a, b :: 0 <= a < b < |FilterFrom(s, k)| ==>
              IndexOf(s, FilterFrom(s, k)[a]) < IndexOf(s, FilterFrom(s, k)[b])
    decreases |s| - k
  {
    if k < |s| {
      FilterFromOrder(s, k + 1);
      var rest := FilterFrom(s, k + 1);
      if IndexOf(s, s[k]) == k {
        FilterFromMembers(s, k + 1);
        var r := [s[k]] + rest;
        assert r == FilterFrom(s, k);
        forall a, b | 0 <= a < b < |r| ensures IndexOf(s, r[a]) < IndexOf(s, r[b]) {
          assert r[b] == rest[b - 1] && rest[b - 1] in rest;
          assert IndexOf(s, r[b]) >= k + 1;
          if a == 0 {
            assert IndexOf(s, r[a]) == k;
          } else {
            assert r[a] == rest[a - 1];
          }
        }
      } else {
        assert FilterFrom(s, k) == rest;
      }
    }
  }

  /**
   * `r` lists every value of `s` once, in the order of their first
   * occurrences in `s`.
   */
  predicate DedupOf<T(==)>(r: seq<T>, s: seq<T>) {
    && NoDuplicates(r)
    && (forall i :: 0 <= i < |r| ==> r[i] in s)
    && (forall i :: 0 <= i < |s| ==> s[i] in r)
    && (forall a, b :: 0 <= a < b < |r| ==> IndexOf(s, r[a]) < IndexOf(s, r[b]))
  }

  /** The filtered column has no duplicates, holds exactly the column's values, in first-occurrence order. */
  lemma FirstOccurrencesSpec<T>(s: seq<T>)
    ensures DedupOf(FirstOccurrences(s), s)
  {
    FilterFromMembers(s, 0);
    FilterFromOrder(s, 0);
    var r := FirstOccurrences(s);
    forall i | 0 <= i < |r| ensures r[i] in s {
      assert r[i] in r && IndexOf(s, r[i]) >= 0;
    }
    forall i | 0 <= i < |s| ensures s[i] in r {
      assert s[i] in s;
    }
  }

  /**
   * The three properties pin the list down: any list that has them is the
   * filtered column.
   */
  lemma DedupUnique<T>(r: seq<T>, s: seq<T>)
    requires DedupOf(r, s)
    ensures r == FirstOccurrences(s)
  {
    FirstOccurrencesSpec(s);
    DedupMembers(r, s);
    DedupMembers(FirstOccurrences(s), s);
    SameOrderedValues(r, FirstOccurrences(s), s);
  }

  lemma DedupMembers<T>(r: seq<T>, s: seq<T>)
    requires DedupOf(r, s)
    ensures forall x :: x in r <==> x in s
  {
    forall x ensures x in r <==> x in s {
      if x in r {
        var k :| 0 <= k < |r| && r[k] == x;
      }
      if x in s {
        var k :| 0 <= k < |s| && s[k] == x;
      }
    }
  }

  lemma HeadIsMember<T>(r: seq<T>)
    ensures r != [] ==> r[0] in r
  {
  }

  lemma TailOfDistinct<T>(r: seq<T>)
    requires NoDuplicates(r) && r != []
    ensures NoDuplicates(r[1..])
  {
    forall a, b | 0 <= a < b < |r| - 1 ensures r[1..][a] != r[1..][b] {
      assert r[1..][a] == r[a + 1] && r[1..][b] == r[b + 1];
    }
  }

  /** The tail of a duplicate-free list holds every value but the head. */
  lemma TailMembers<T>(r: seq<T>, x: T)
    requires NoDuplicates(r) && r != []
    ensures x in r[1..] <==> x in r && x != r[0]
  {
    assert r == [r[0]] + r[1..];
    if x in r[1..] {
      var k :| 0 <= k < |r| - 1 && r[1..][k] == x;
      assert r[k + 1] == x;
    }
  }

  /** Two duplicate-free lists of the same values, both in first-occurrence order of `s`, are equal. */
  lemma {:induction false} SameOrderedValues<T>(r: seq<T>, t: seq<T>, s: seq<T>)
    requires NoDuplicates(r) && NoDuplicates(t)
    requires forall x :: x in r <==> x in t
    requires forall x :: x in r ==> x in s
    requires forall a, b :: 0 <= a < b < |r| ==> IndexOf(s, r[a]) < IndexOf(s, r[b])
    requires forall a, b :: 0 <= a < b < |t| ==> IndexOf(s, t[a]) < IndexOf(s, t[b])
    ensures r == t
    decreases |r|
  {
    HeadIsMember(r);
    HeadIsMember(t);
    if r != [] {
      assert r[0] in t && t[0] in r;
      var i :| 0 <= i < |r| && r[i] == t[0];
      var j :| 0 <= j < |t| && t[j] == r[0];
      assert i == 0 || j == 0;
      assert r[0] == t[0];
      var r', t' := r[1..], t[1..];
      TailOfDistinct(r);
      TailOfDistinct(t);
      forall x ensures x in r' <==> x in t' {
        TailMembers(r, x);
        TailMembers(t, x);
      }
      forall a, b | 0 <= a < b < |r'| ensures IndexOf(s, r'[a]) < IndexOf(s, r'[b]) {
        assert r'[a] == r[a + 1] && r'[b] == r[b + 1];
      }
      forall a, b | 0 <= a < b < |t'| ensures IndexOf(s, t'[a]) < IndexOf(s, t'[b]) {
        assert t'[a] == t[a + 1] && t'[b] == t[b + 1];
      }
      SameOrderedValues(r', t', s);
      assert r == [r[0]] + r' && t == [t[0]] + t';
    }
  }

  /** A column without repeated values passes the filter unchanged. */
  lemma {:induction false} FirstOccurrencesOfDistinct<T>(s: seq<T>, k: nat)
    requires NoDuplicates(s) && k <= |s|
    ensures FilterFrom(s, k) == s[k..]
    decreases |s| - k
  {
    if k < |s| {
      FirstOccurrencesOfDistinct(s, k + 1);
      assert IndexOf(s, s[k]) == k;
      assert s[k..] == [s[k]] + s[k + 1..];
    }
  }

  /** A value occurs at most once in a sequence without duplicates. */
  lemma {:induction false} DistinctCount<T>(s: seq<T>, x: T)
    requires NoDuplicates(s)
    ensures multiset(s)[x] <= 1
  {
    if s != [] {
      assert s == [s[0]] + s[1..];
      assert NoDuplicates(s[1..]) by {
        forall i, j | 0 <= i < j < |s| - 1 ensures s[1..][i] != s[1..][j] {
          assert s[1..][i] == s[i + 1] && s[1..][j] == s[j + 1];
        }
      }
      DistinctCount(s[1..], x);
      if s[0] == x {
        assert x !in s[1..];
      }
    }
  }

  /** A value found at two indices occurs at least twice. */
  lemma RepeatCount<T>(s: seq<T>, i: int, j: int)
    requires 0 <= i < j < |s| && s[i] == s[j]
    ensures multiset(s)[s[i]] >= 2
  {
    assert s == s[..j] + [s[j]] + s[j + 1..];
    assert s[i] in s[..j];
  }

  /** Reordering a sequence without duplicates introduces none. */
  lemma DistinctPermutation<T>(s: seq<T>, t: seq<T>)
    requires NoDuplicates(s) && multiset(s) == multiset(t)
    ensures NoDuplicates(t)
  {
    forall i, j | 0 <= i < j < |t| ensures t[i] != t[j] {
      if t[i] == t[j] {
        RepeatCount(t, i, j);
        DistinctCount(s, t[i]);
        assert false;
      }
    }
  }
}
