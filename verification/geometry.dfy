/** Ray-casting point-in-polygon test (`isPointInPolygon` in functions/index.js).
    Coordinates are exact reals: the even-odd rule is modelled, not the
    rounding of JavaScript's double-precision arithmetic. */
module Geometry {
  import opened Common

  /** A stored boundary vertex. Either naming convention may be present; a
      field absent from the stored document is `None`. */
  datatype Vertex = Vertex(latitude: Option<real>, longitude: Option<real>, lat: Option<real>, lng: Option<real>)

  /** The point under test, already validated. */
  datatype Point = Point(lat: real, lng: real)

  /** JavaScript `first || second || 0` over two optional numeric fields. A
      stored 0 is falsy, so it falls through to the other field. */
  function Fallback(first: Option<real>, second: Option<real>): (r: real)
    ensures r != 0.0 ==> first == Some(r) || second == Some(r)
    ensures first.Some? && first.value != 0.0 ==> r == first.value
    ensures first.None? || first.value == 0.0 ==> r == (if second.Some? then second.value else 0.0)
  {
    if first.Some? && first.value != 0.0 then first.value
    else if second.Some? && second.value != 0.0 then second.value
    else 0.0
  }

  /** The vertex's x coordinate: `longitude || lng || 0`. */
  function X(v: Vertex): real { Fallback(v.longitude, v.lng) }

  /** The vertex's y coordinate: `latitude || lat || 0`. */
  function Y(v: Vertex): real { Fallback(v.latitude, v.lat) }

  /** Whether the eastward horizontal ray from `pt` crosses the edge from `vj`
      to `vi`. The division is reached only when exactly one end lies above
      the ray, so the edge is never horizontal there. */
  predicate Crosses(pt: Point, vi: Vertex, vj: Vertex)
    ensures Crosses(pt, vi, vj) ==>
      (Y(vi) <= pt.lat < Y(vj)) || (Y(vj) <= pt.lat < Y(vi))
  {
    var xi, yi, xj, yj := X(vi), Y(vi), X(vj), Y(vj);
    (yi > pt.lat) != (yj > pt.lat) && pt.lng < (xj - xi) * (pt.lat - yi) / (yj - yi) + xi
  }

  /** The index of the edge's other end: `j` runs one step behind `i`, wrapping. */
  function Prev(n: nat, i: nat): nat
    requires i < n
  {
    if i == 0 then n - 1 else i - 1
  }

  /** The number of edges (i, Prev(i)) with i < k that the ray crosses. */
  function CrossingCount(pt: Point, poly: seq<Vertex>, k: nat): nat
    requires k <= |poly|
  {
    if k == 0 then 0
    else CrossingCount(pt, poly, k - 1) + (if Crosses(pt, poly[k - 1], poly[Prev(|poly|, k - 1)]) then 1 else 0)
  }

  /** The even-odd rule: inside iff the ray crosses an odd number of edges.
      Fewer than three vertices never contain anything. */
  predicate Contains(pt: Point, poly: seq<Vertex>)
  {
    |poly| >= 3 && CrossingCount(pt, poly, |poly|) % 2 == 1
  }

  /** The source's loop: walk the edges, toggling `inside` at each crossing. */
  method IsPointInPolygon(pt: Point, poly: seq<Vertex>) returns (inside: bool)
    ensures |poly| < 3 ==> !inside
    ensures |poly| >= 3 ==> (inside <==> CrossingCount(pt, poly, |poly|) % 2 == 1)
    ensures inside == Contains(pt, poly)
  {
    if |poly| < 3 {
      return false;
    }
    inside := false;
    var i := 0;
    var j := |poly| - 1;
    while i < |poly|
      invariant 0 <= i <= |poly|
      invariant i < |poly| ==> j == Prev(|poly|, i)
      invariant inside <==> CrossingCount(pt, poly, i) % 2 == 1
    {
      if Crosses(pt, poly[i], poly[j]) {
        inside := !inside;
      }
      j := i;
      i := i + 1;
    }
  }

  /** No edge ends above a point that is at least as far north as every vertex. */
  lemma {:induction false} NorthOfAllVerticesIsOutside(pt: Point, poly: seq<Vertex>)
    requires forall v :: v in poly ==> Y(v) <= pt.lat
    ensures !Contains(pt, poly)
  {
    NoCrossings(pt, poly, |poly|);
  }

  /** No edge ends at or below a point that is strictly south of every vertex. */
  lemma {:induction false} SouthOfAllVerticesIsOutside(pt: Point, poly: seq<Vertex>)
    requires forall v :: v in poly ==> Y(v) > pt.lat
    ensures !Contains(pt, poly)
  {
    NoCrossings(pt, poly, |poly|);
  }

  /** The ray from a point at least as far east as every vertex meets no edge. */
  lemma {:induction false} EastOfAllVerticesIsOutside(pt: Point, poly: seq<Vertex>)
    requires forall v :: v in poly ==> X(v) <= pt.lng
    ensures !Contains(pt, poly)
  {
    forall i | 0 <= i < |poly|
      ensures !Crosses(pt, poly[i], poly[Prev(|poly|, i)])
    {
      EdgeWestOfPointIsNotCrossed(pt, poly[i], poly[Prev(|poly|, i)]);
    }
    NoCrossings(pt, poly, |poly|);
  }

  /** Where an edge straddles the ray, it meets the ray's latitude between its
      ends, so a point east of both ends is not west of the meeting point. */
  lemma EdgeWestOfPointIsNotCrossed(pt: Point, vi: Vertex, vj: Vertex)
    requires X(vi) <= pt.lng && X(vj) <= pt.lng
    ensures !Crosses(pt, vi, vj)
  {
    var xi, yi, xj, yj := X(vi), Y(vi), X(vj), Y(vj);
    var y, m := pt.lat, pt.lng;
    if (yi > y) != (yj > y) {
      var d, a := yj - yi, y - yi;
      if d > 0.0 {
        BetweenEnds(xi, xj, a, d, m);
      } else {
        BetweenEndsNeg(xi, xj, a, d, m);
      }
      assert (xj - xi) * a / d + xi <= m;
    }
  }

  /** With the ray's latitude a fraction a/d of the way along the edge, the
      meeting point is a convex combination of the two ends' longitudes. */
  lemma BetweenEnds(xi: real, xj: real, a: real, d: real, m: real)
    requires d > 0.0 && 0.0 <= a <= d && xi <= m && xj <= m
    ensures (xj - xi) * a / d + xi <= m
  {
    var q := (xj - xi) * a / d;
    MulMono(a, xj, m);
    MulMono(d - a, xi, m);
    calc {
      (q + xi) * d;
    ==
      q * d + xi * d;
    == { assert q * d == (xj - xi) * a; }
      (xj - xi) * a + xi * d;
    ==
      a * xj + (d - a) * xi;
    <=
      a * m + (d - a) * m;
    ==
      m * d;
    }
    DivMono(q + xi, m, d);
  }

  /** The same when the edge runs southwards: both the latitude difference
      and the edge's extent are negative. */
  lemma BetweenEndsNeg(xi: real, xj: real, a: real, d: real, m: real)
    requires d < 0.0 && d <= a <= 0.0 && xi <= m && xj <= m
    ensures (xj - xi) * a / d + xi <= m
  {
    var q := (xj - xi) * a / d;
    MulAntitone(a, xj, m);
    MulAntitone(d - a, xi, m);
    calc {
      (q + xi) * d;
    ==
      q * d + xi * d;
    == { assert q * d == (xj - xi) * a; }
      (xj - xi) * a + xi * d;
    ==
      a * xj + (d - a) * xi;
    >=
      a * m + (d - a) * m;
    ==
      m * d;
    }
    DivAntitone(q + xi, m, d);
  }

  lemma MulAntitone(c: real, u: real, v: real)
    requires c <= 0.0 && u <= v
    ensures c * u >= c * v
  {
  }

  lemma DivAntitone(u: real, v: real, d: real)
    requires d < 0.0 && u * d >= v * d
    ensures u <= v
  {
  }

  lemma MulMono(c: real, u: real, v: real)
    requires c >= 0.0 && u <= v
    ensures c * u <= c * v
  {
  }

  lemma DivMono(u: real, v: real, d: real)
    requires d > 0.0 && u * d <= v * d
    ensures u <= v
  {
  }

  /** When no single edge is crossed, the count stays at zero. */
  lemma {:induction false} NoCrossings(pt: Point, poly: seq<Vertex>, k: nat)
    requires k <= |poly|
    requires (forall v :: v in poly ==> Y(v) <= pt.lat) ||
             (forall v :: v in poly ==> Y(v) > pt.lat) ||
             (forall i :: 0 <= i < |poly| ==> !Crosses(pt, poly[i], poly[Prev(|poly|, i)]))
    ensures CrossingCount(pt, poly, k) == 0
  {
    if k > 0 {
      NoCrossings(pt, poly, k - 1);
      assert poly[k - 1] in poly && poly[Prev(|poly|, k - 1)] in poly;
    }
  }

  /** The unit square example: (5, 5) lies inside the square with corners
      (0, 0), (0, 10), (10, 10), (10, 0), and (20, 20) lies outside it. */
  lemma SquareExample()
    ensures var square := [Corner(0.0, 0.0), Corner(0.0, 10.0), Corner(10.0, 10.0), Corner(10.0, 0.0)];
      Contains(Point(5.0, 5.0), square) && !Contains(Point(20.0, 20.0), square)
  {
    var square := [Corner(0.0, 0.0), Corner(0.0, 10.0), Corner(10.0, 10.0), Corner(10.0, 0.0)];
    var pt := Point(5.0, 5.0);
    assert !Crosses(pt, square[0], square[3]);
    assert !Crosses(pt, square[1], square[0]);
    assert Crosses(pt, square[2], square[1]);
    assert !Crosses(pt, square[3], square[2]);
    assert CrossingCount(pt, square, 4) == 1;
    NorthOfAllVerticesIsOutside(Point(20.0, 20.0), square);
  }

  /** A vertex stored under the full field names. */
  function Corner(lat: real, lng: real): Vertex
  {
    Vertex(Some(lat), Some(lng), None, None)
  }
}
