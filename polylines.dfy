/**
 * The geometry `Lines` hands to the line object: one vertex per axis, at the
 * axis' fixed x and at the y its table holds for the flow's value (z is always
 * 0 and is not kept), plus the vertex colours, which the colour loop writes
 * two at a time.
 */
module Polylines {
  import opened Wrappers

  /** A vertex; `y` is `undefined` when the axis table has no entry for the value. */
  datatype Vertex = Vertex(x: real, y: Option<real>)

  /** A colour made of three `Math.random()` draws. */
  datatype Color = Color(r: real, g: real, b: real)

  datatype Polyline = Polyline(vertices: seq<Vertex>, colors: seq<Color>)

  /**
   * The colour loop of `Lines`: for every even `i` below the vertex count,
   * `colors[i]` takes a fresh colour and `colors[i + 1]` the same one. The
   * fresh colours are passed in as `draws`, one per iteration.
   */
  method PairColors(count: nat, draws: seq<Color>) returns (colors: seq<Color>)
    requires |draws| == (count + 1) / 2
    ensures |colors| == 2 * |draws|
    ensures forall k :: 0 <= k < |colors| ==> colors[k] == draws[k / 2]
    ensures forall i :: 0 <= i < |colors| && i % 2 == 0 ==> colors[i + 1] == colors[i]
  {
    colors := [];
    var i := 0;
    while i < count
      invariant i % 2 == 0 && i <= count + 1
      invariant |colors| == i
      invariant forall k :: 0 <= k < i ==> colors[k] == draws[k / 2]
    {
      colors := colors + [draws[i / 2]];
      colors := colors + [colors[i]];
      i := i + 2;
    }
  }
}
