/**
 * The axis layout the driver repeats for every axis: the n distinct values of
 * a column are spread down the axis from the top of the graph border, one
 * offset of `(10.5 / n) / 2` apart, and each value is stored in a hash table
 * under its y coordinate. Coordinates are exact reals here.
 */
module AxisLayout {
  import opened Wrappers
  import opened HashTables
  import opened Dedup

  /** The starting point `res = 2.8`, also the top edge of the graph border. */
  const Top: real := 2.8
  /** The bottom edge of the graph border. */
  const Bottom: real := -2.5
  /** The numerator of the offset. */
  const Span: real := 10.5

  /** The constant step between neighbouring values on an axis of `n` values. */
  function Offset(n: nat): (r: real)
    requires n > 0
    ensures r > 0.0
  {
    (Span / n as real) / 2.0
  }

  /** The y coordinate the layout loop gives the value at index `i` of `n`. */
  function AxisY(n: nat, i: int): real
    requires n > 0
  {
    Top - (i + 1) as real * Offset(n)
  }

  /**
   * The y of `v` after laying out `list` (the table lookup of the driver),
   * `undefined` when `v` is not one of the values.
   */
  function AxisAt<T(==)>(list: seq<T>, v: T): (r: Option<real>)
    ensures r.Some? <==> v in list
  {
    if v in list then Some(AxisY(|list|, IndexOf(list, v))) else None
  }

  /**
   * The loop that fills `srcIPY` (and its three siblings): `res` starts at
   * `Top` and drops by the offset before each store. The source computes the
   * offset even for an empty list, where it is Infinity and never used.
   */
  method AxisCoordinates(n: nat) returns (ys: seq<real>)
    ensures |ys| == n
    ensures forall i :: 0 <= i < n ==> ys[i] == AxisY(n, i)
  {
    var offset := if n == 0 then 0.0 else Offset(n);
    var res := Top;
    ys := [];
    for i := 0 to n
      invariant |ys| == i
      invariant res == Top - i as real * offset
      invariant forall k :: 0 <= k < i ==> ys[k] == AxisY(n, k)
    {
      res := res - offset;
      ys := ys + [res];
    }
  }

  /**
   * One axis of the driver: the coordinates loop, then
   * `table.setItem(list[i], ys[i])` for every index of a fresh table.
   */
  method LayOutAxis<T(==)>(list: seq<T>) returns (table: HashTable<T, real>, ys: seq<real>)
    ensures fresh(table) && table.Valid()
    ensures |ys| == |list| && forall i :: 0 <= i < |list| ==> ys[i] == AxisY(|list|, i)
    ensures forall v :: v in table.items <==> v in list
    ensures NoDuplicates(list) ==> table.length == |list|
    ensures NoDuplicates(list) ==> forall v :: table.GetItem(v) == AxisAt(list, v)
  {
    ys := AxisCoordinates(|list|);
    table := new HashTable(map[]);
    for i := 0 to |list|
      invariant fresh(table) && table.Valid()
      invariant forall v :: v in table.items <==> v in list[..i]
      invariant NoDuplicates(list) ==> table.length == i
      invariant NoDuplicates(list) ==> forall k :: 0 <= k < i ==> table.items[list[k]] == ys[k]
    {
      assert list[..i + 1] == list[..i] + [list[i]];
      var previous := table.SetItem(list[i], ys[i]);
    }
    assert list[..|list|] == list;
    if NoDuplicates(list) {
      forall v ensures table.GetItem(v) == AxisAt(list, v) {
        if v in list {
          var k := IndexOf(list, v);
          assert table.items[list[k]] == ys[k];
        }
      }
    }
  }

  /** The first value sits one offset below the top: `2.8 - 5.25 / n`. */
  lemma FirstCoordinate(n: nat)
    requires n > 0
    ensures AxisY(n, 0) == Top - 5.25 / n as real
  {
  }

  /** The last value sits at -2.45 whatever the number of values. */
  lemma {:induction false} LastCoordinate(n: nat)
    requires n > 0
    ensures AxisY(n, n - 1) == -2.45
  {
    assert n as real * (Span / n as real) == Span;
  }

  /** Neighbouring values are exactly one offset apart. */
  lemma Spacing(n: nat, i: int)
    requires n > 0
    ensures AxisY(n, i) - AxisY(n, i + 1) == Offset(n)
  {
  }

  /** A later index is placed strictly lower: the layout is injective and keeps the list's order. */
  lemma {:induction false} StrictlyDecreasing(n: nat, i: int, j: int)
    requires n > 0 && i < j
    ensures AxisY(n, i) > AxisY(n, j)
  {
    var o := Offset(n);
    assert (j + 1) as real * o - (i + 1) as real * o == (j - i) as real * o;
    assert (j - i) as real * o > 0.0;
  }

  /** Every value lies strictly inside the border, between -2.45 and `2.8 - 5.25 / n`. */
  lemma {:induction false} InsideBorder(n: nat, i: int)
    requires 0 <= i < n
    ensures -2.45 <= AxisY(n, i) <= Top - 5.25 / n as real
    ensures Bottom < AxisY(n, i) < Top
  {
    FirstCoordinate(n);
    LastCoordinate(n);
    if i > 0 {
      StrictlyDecreasing(n, 0, i);
    }
    if i < n - 1 {
      StrictlyDecreasing(n, i, n - 1);
    }
  }

  /**
   * On a laid-out axis every value lies inside the border, a value listed
   * earlier lies higher, and two different values never share a height.
   */
  lemma {:induction false} AxisAtOrder<T>(list: seq<T>, v: T, w: T)
    requires v in list && w in list
    ensures Bottom < AxisAt(list, v).value < Top
    ensures IndexOf(list, v) < IndexOf(list, w) ==> AxisAt(list, v).value > AxisAt(list, w).value
    ensures v != w <==> AxisAt(list, v) != AxisAt(list, w)
  {
    var n, i, j := |list|, IndexOf(list, v), IndexOf(list, w);
    InsideBorder(n, i);
    if i < j {
      StrictlyDecreasing(n, i, j);
    } else if j < i {
      StrictlyDecreasing(n, j, i);
    }
  }
}
