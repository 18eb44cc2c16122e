/** On convex rings the parity test is geometry: what the edges say about a point is what it answers. */
module ConvexZones {
  import opened Plane
  import opened CyclicParity
  import opened RayCrossing
  import opened RealArithmetic

  predicate LeftTurn(ring: seq<Point>, i: int, j: int, k: int)
    requires 0 <= i < j < k < |ring|
  {
    Orient(ring[i], ring[j], ring[k]) > 0.0
  }

  /** A strictly convex ring, listed counter-clockwise. */
  ghost predicate Convex(ring: seq<Point>) {
    |ring| >= 3 && forall i, j, k :: 0 <= i < j < k < |ring| ==> LeftTurn(ring, i, j, k)
  }

  function Next(ring: seq<Point>, k: int): Point
    requires 0 <= k < |ring|
  {
    if k + 1 < |ring| then ring[k + 1] else ring[0]
  }

  /** On which side of the k-th edge the point lies: positive on the left. */
  function Side(ring: seq<Point>, k: int, p: Point): real
    requires 0 <= k < |ring|
  {
    Orient(ring[k], Next(ring, k), p)
  }

  /** Strictly to the left of every edge. */
  ghost predicate StrictlyIn(ring: seq<Point>, p: Point) {
    forall k :: 0 <= k < |ring| ==> Side(ring, k, p) > 0.0
  }

  /** Strictly to the right of some edge. */
  ghost predicate StrictlyOut(ring: seq<Point>, p: Point) {
    exists k :: 0 <= k < |ring| && Side(ring, k, p) < 0.0
  }

  // ----- Areas -------------------------------------------------------------------------

  lemma OrientTurns(a: Point, b: Point, c: Point)
    ensures Orient(b, c, a) == Orient(a, b, c) == Orient(c, a, b)
    ensures Orient(a, b, a) == 0.0 && Orient(a, b, b) == 0.0
  {
  }

  /** No vertex lies to the right of an edge. */
  lemma EdgeSupports(ring: seq<Point>, k: nat, i: nat)
    requires Convex(ring) && k < |ring| && i < |ring|
    ensures Side(ring, k, ring[i]) >= 0.0
  {
    var n := |ring|;
    OrientTurns(ring[k], Next(ring, k), ring[i]);
    if k + 1 < n {
      if i < k {
        assert LeftTurn(ring, i, k, k + 1);
      } else if i > k + 1 {
        assert LeftTurn(ring, k, k + 1, i);
      }
    } else if 0 < i < k {
      assert LeftTurn(ring, 0, i, k);
    }
  }

  /** The side of p seen from u-v, by the sides of a and b and by how p lies towards a-b. */
  lemma Balance(u: Point, v: Point, a: Point, b: Point, p: Point)
    ensures ((b.y - p.y) - (a.y - p.y)) * Orient(u, v, p)
         == (v.y - u.y) * Orient(a, b, p) + (b.y - p.y) * Orient(u, v, a) - (a.y - p.y) * Orient(u, v, b)
  {
  }

  /** Four vertices in order: opposite pairs balance each other. */
  lemma Opposite(a: Point, b: Point, c: Point, d: Point, p: Point)
    ensures Orient(b, c, d) * (a.y - p.y) + Orient(a, b, d) * (c.y - p.y)
         == Orient(a, c, d) * (b.y - p.y) + Orient(a, b, c) * (d.y - p.y)
  {
  }

  // ----- Above and below ---------------------------------------------------------------

  predicate Above(p: Point, v: Point) {
    p.y <= v.y
  }

  /** The question put to a ring, and what the edges answer. */
  ghost predicate Exact(ring: seq<Point>, p: Point) {
    && (StrictlyIn(ring, p) ==> Inside(ring, p))
    && (StrictlyOut(ring, p) ==> !Inside(ring, p))
  }

  ghost predicate BothSides(ring: seq<Point>, p: Point) {
    (exists v :: v in ring && Above(p, v)) && exists v :: v in ring && !Above(p, v)
  }

  /** Going round a convex ring the height of p is not passed four times. */
  lemma NoAlternation(ring: seq<Point>, i: nat, j: nat, k: nat, l: nat, p: Point)
    requires Convex(ring) && i < j < k < l < |ring|
    ensures !(Above(p, ring[i]) && !Above(p, ring[j]) && Above(p, ring[k]) && !Above(p, ring[l]))
  {
    var a, b, c, d := ring[i], ring[j], ring[k], ring[l];
    assert LeftTurn(ring, i, j, k) && LeftTurn(ring, i, j, l) && LeftTurn(ring, i, k, l) && LeftTurn(ring, j, k, l);
    Opposite(a, b, c, d, p);
    NoBalance(Orient(b, c, d), Orient(a, c, d), Orient(a, b, d), Orient(a, b, c),
              a.y - p.y, b.y - p.y, c.y - p.y, d.y - p.y);
  }

  lemma NoBalance(u: real, v: real, w: real, x: real, h: real, i: real, j: real, k: real)
    requires u > 0.0 && v > 0.0 && w > 0.0 && x > 0.0 && u * h + w * j == v * i + x * k
    ensures !(h >= 0.0 && i < 0.0 && j >= 0.0 && k < 0.0)
  {
    WeighedSigns(u, h);
    WeighedSigns(v, i);
    WeighedSigns(w, j);
    WeighedSigns(x, k);
  }

  function Rotated(ring: seq<Point>, s: nat): seq<Point>
    requires s <= |ring|
  {
    ring[s..] + ring[..s]
  }

  /** Starting elsewhere keeps a ring convex and its sides the same. */
  lemma RotatedIsConvex(ring: seq<Point>, s: nat)
    requires Convex(ring) && s < |ring|
    ensures Convex(Rotated(ring, s))
  {
    var r, n := Rotated(ring, s), |ring|;
    forall i, j, k | 0 <= i < j < k < n
      ensures LeftTurn(r, i, j, k)
    {
      OrientTurns(r[i], r[j], r[k]);
      if k < n - s {
        assert LeftTurn(ring, i + s, j + s, k + s);
      } else if j < n - s {
        assert LeftTurn(ring, k + s - n, i + s, j + s);
      } else if i < n - s {
        assert LeftTurn(ring, j + s - n, k + s - n, i + s);
      } else {
        assert LeftTurn(ring, i + s - n, j + s - n, k + s - n);
      }
    }
  }

  lemma RotatedSide(ring: seq<Point>, s: nat, k: nat, p: Point)
    requires s < |ring| && k < |ring|
    ensures Side(Rotated(ring, s), k, p) == Side(ring, if k < |ring| - s then k + s else k + s - |ring|, p)
  {
  }

  lemma RotatedSides(ring: seq<Point>, s: nat, p: Point)
    requires s < |ring|
    ensures StrictlyIn(ring, p) ==> StrictlyIn(Rotated(ring, s), p)
    ensures StrictlyOut(ring, p) ==> StrictlyOut(Rotated(ring, s), p)
  {
    var r, n := Rotated(ring, s), |ring|;
    if StrictlyIn(ring, p) {
      forall k | 0 <= k < n
        ensures Side(r, k, p) > 0.0
      {
        RotatedSide(ring, s, k, p);
      }
    }
    if k :| 0 <= k < n && Side(ring, k, p) < 0.0 {
      RotatedSide(ring, s, if k >= s then k - s else k - s + n, p);
    }
  }

  predicate Rises(ring: seq<Point>, s: nat, p: Point)
    requires s < |ring|
  {
    Above(p, ring[s]) && !Above(p, ring[if s > 0 then s - 1 else |ring| - 1])
  }

  /** With vertices on both sides some edge comes up from below. */
  lemma RisingEdge(ring: seq<Point>, p: Point) returns (s: nat)
    requires BothSides(ring, p)
    ensures s < |ring| && Rises(ring, s, p)
  {
    s := 0;
    if Above(p, ring[0]) {
      s := |ring| - 1;
      while s > 0 && Above(p, ring[s])
        invariant s < |ring|
        invariant forall k :: s < k < |ring| ==> Above(p, ring[k])
      {
        s := s - 1;
      }
      s := if s + 1 < |ring| then s + 1 else 0;
    } else {
      while s < |ring| - 1 && !Above(p, ring[s])
        invariant s < |ring|
        invariant forall k :: 0 <= k < s ==> !Above(p, ring[k])
        invariant s > 0 ==> !Above(p, ring[s - 1])
      {
        s := s + 1;
      }
    }
  }

  /** From a rising edge on, a convex ring is first above and then below. */
  lemma FirstAboveThenBelow(ring: seq<Point>, p: Point) returns (m: nat)
    requires Convex(ring) && Above(p, ring[0]) && !Above(p, ring[|ring| - 1])
    ensures 0 < m < |ring| && forall k :: 0 <= k < |ring| ==> (Above(p, ring[k]) <==> k < m)
  {
    m := 0;
    while Above(p, ring[m])
      invariant m < |ring|
      invariant forall k :: 0 <= k < m ==> Above(p, ring[k])
      decreases |ring| - m
    {
      m := m + 1;
    }
    forall k | m <= k < |ring|
      ensures !Above(p, ring[k])
    {
      if Above(p, ring[k]) {
        NoAlternation(ring, 0, m, k, |ring| - 1, p);
      }
    }
  }

  lemma SameSideUnmarked(path: seq<Point>, p: Point, above: bool)
    requires forall v :: v in path ==> Above(p, v) == above
    ensures !OddPath(Ray(p), path)
  {
    NoMarks(Ray(p), path);
  }

  /** Only the edge that comes up and the edge that goes down count. */
  lemma TwoEdgesCount(ring: seq<Point>, m: nat, p: Point)
    requires 0 < m < |ring|
    requires forall k :: 0 <= k < |ring| ==> (Above(p, ring[k]) <==> k < m)
    ensures Inside(ring, p) <==> (Orient(ring[|ring| - 1], ring[0], p) > 0.0) != (Orient(ring[m - 1], ring[m], p) < 0.0)
  {
    var front, back := ring[..m], ring[m..];
    assert front + back == ring;
    RingOfTwo(Ray(p), front, back);
    SameSideUnmarked(front, p, true);
    SameSideUnmarked(back, p, false);
    EdgeCrossing(p, ring[|ring| - 1], ring[0]);
    EdgeCrossing(p, ring[m - 1], ring[m]);
    assert Above(p, ring[0]) && Above(p, ring[m - 1]) && !Above(p, ring[m]) && !Above(p, ring[|ring| - 1]);
  }

  // ----- Between the two edges ---------------------------------------------------------

  /** Signs in Balance, for an edge that comes up and a line with neither end to its right. */
  lemma LeftOfRising(u: Point, v: Point, a: Point, b: Point, p: Point)
    requires a.y < p.y <= b.y && Orient(u, v, a) >= 0.0 && Orient(u, v, b) >= 0.0
    ensures (v.y - u.y) * Orient(a, b, p) >= 0.0 ==> Orient(u, v, p) >= 0.0
    ensures (v.y - u.y) * Orient(a, b, p) > 0.0 ==> Orient(u, v, p) > 0.0
  {
    Balance(u, v, a, b, p);
    WeighedSigns(Orient(u, v, a), b.y - p.y);
    WeighedSigns(Orient(u, v, b), a.y - p.y);
    WeighedSigns(Orient(u, v, p), (b.y - p.y) - (a.y - p.y));
  }

  /** The coming-up edge is not to the left of the going-down edge. */
  lemma EdgesDoNotSwap(a: Point, b: Point, c: Point, d: Point, p: Point)
    requires a.y < p.y <= b.y && d.y < p.y <= c.y
    requires Orient(a, b, c) >= 0.0 && Orient(a, b, d) >= 0.0
    requires Orient(a, b, p) <= 0.0
    ensures Orient(c, d, p) >= 0.0
  {
    OrientFlips(c, d, p);
    WeighedSigns(Orient(d, c, p), b.y - a.y);
    LeftOfRising(a, b, d, c, p);
  }

  /** A point between the two edges is to the right of no edge. */
  lemma BetweenIsLeft(u: Point, v: Point, a: Point, b: Point, c: Point, d: Point, p: Point)
    requires a.y < p.y <= b.y && d.y < p.y <= c.y
    requires Orient(u, v, a) >= 0.0 && Orient(u, v, b) >= 0.0 && Orient(u, v, c) >= 0.0 && Orient(u, v, d) >= 0.0
    requires Orient(a, b, p) > 0.0 && Orient(c, d, p) >= 0.0
    ensures Orient(u, v, p) >= 0.0
  {
    OrientFlips(c, d, p);
    if v.y >= u.y {
      WeighedSigns(Orient(a, b, p), v.y - u.y);
      LeftOfRising(u, v, a, b, p);
    } else {
      WeighedSigns(Orient(d, c, p), v.y - u.y);
      LeftOfRising(u, v, d, c, p);
    }
  }

  /** Reported inside exactly between the coming-up and the going-down edge. */
  lemma InsideIsBetween(ring: seq<Point>, m: nat, p: Point)
    requires Convex(ring) && 0 < m < |ring|
    requires forall k :: 0 <= k < |ring| ==> (Above(p, ring[k]) <==> k < m)
    ensures Inside(ring, p) <==> Side(ring, |ring| - 1, p) > 0.0 && Side(ring, m - 1, p) >= 0.0
  {
    var n := |ring|;
    TwoEdgesCount(ring, m, p);
    EdgeSupports(ring, n - 1, m - 1);
    EdgeSupports(ring, n - 1, m);
    assert Above(p, ring[0]) && Above(p, ring[m - 1]) && !Above(p, ring[m]) && !Above(p, ring[n - 1]);
    if Side(ring, n - 1, p) <= 0.0 {
      EdgesDoNotSwap(ring[n - 1], ring[0], ring[m - 1], ring[m], p);
    }
  }

  lemma OutsideIsNotBetween(ring: seq<Point>, m: nat, p: Point)
    requires Convex(ring) && 0 < m < |ring| && StrictlyOut(ring, p)
    requires forall k :: 0 <= k < |ring| ==> (Above(p, ring[k]) <==> k < m)
    ensures !(Side(ring, |ring| - 1, p) > 0.0 && Side(ring, m - 1, p) >= 0.0)
  {
    var n := |ring|;
    var k :| 0 <= k < n && Side(ring, k, p) < 0.0;
    EdgeSupports(ring, k, n - 1);
    EdgeSupports(ring, k, 0);
    EdgeSupports(ring, k, m - 1);
    EdgeSupports(ring, k, m);
    assert Above(p, ring[0]) && Above(p, ring[m - 1]) && !Above(p, ring[m]) && !Above(p, ring[n - 1]);
    if Side(ring, n - 1, p) > 0.0 && Side(ring, m - 1, p) >= 0.0 {
      BetweenIsLeft(ring[k], Next(ring, k), ring[n - 1], ring[0], ring[m - 1], ring[m], p);
    }
  }

  // ----- Vertices on both sides --------------------------------------------------------

  /** At a lowest or highest vertex q between e and f: a point left of both edges is not beyond q. */
  lemma NotBeyond(e: Point, q: Point, f: Point, p: Point)
    requires Orient(e, q, f) > 0.0 && Orient(e, q, p) > 0.0 && Orient(q, f, p) > 0.0
    ensures e.y >= q.y && f.y >= q.y ==> p.y > q.y
    ensures e.y <= q.y && f.y <= q.y ==> p.y < q.y
  {
    var u, v, w := Orient(q, f, p), Orient(f, e, p), Orient(e, q, p);
    WeighedHeights(e, q, f, p);
    LevelVertices(e, q, f);
    HeightsOverVertex(u, v, w, e.y, q.y, f.y, p.y);
    ExtremeHeight(u, w, u + v + w, e.y - q.y, f.y - q.y, q.y - p.y);
  }

  lemma HeightsOverVertex(u: real, v: real, w: real, e: real, q: real, f: real, p: real)
    requires u * (e - p) + v * (q - p) + w * (f - p) == 0.0
    ensures Product(u, e - q) + Product(w, f - q) + Product(u + v + w, q - p) == 0.0
  {
  }

  lemma ExtremeHeight(u: real, w: real, area: real, i: real, j: real, h: real)
    requires u > 0.0 && w > 0.0 && area > 0.0 && (i != 0.0 || j != 0.0)
    requires Product(u, i) + Product(w, j) + Product(area, h) == 0.0
    ensures i >= 0.0 && j >= 0.0 ==> h < 0.0
    ensures i <= 0.0 && j <= 0.0 ==> h > 0.0
  {
    SignOfProduct(u, i);
    SignOfProduct(w, j);
    SignOfProduct(area, h);
  }

  lemma LevelVertices(e: Point, q: Point, f: Point)
    ensures e.y == q.y && f.y == q.y ==> Orient(e, q, f) == 0.0
  {
  }

  lemma LowestVertex(ring: seq<Point>) returns (s: nat)
    requires ring != []
    ensures s < |ring| && forall v :: v in ring ==> ring[s].y <= v.y
  {
    s := 0;
    for k := 0 to |ring|
      invariant s < |ring| && forall i :: 0 <= i < k ==> ring[s].y <= ring[i].y
    {
      if ring[k].y < ring[s].y {
        s := k;
      }
    }
  }

  lemma HighestVertex(ring: seq<Point>) returns (s: nat)
    requires ring != []
    ensures s < |ring| && forall v :: v in ring ==> ring[s].y >= v.y
  {
    s := 0;
    for k := 0 to |ring|
      invariant s < |ring| && forall i :: 0 <= i < k ==> ring[s].y >= ring[i].y
    {
      if ring[k].y > ring[s].y {
        s := k;
      }
    }
  }

  /** A point left of every edge does not lie beyond an extreme vertex. */
  lemma ExtremeVertex(ring: seq<Point>, s: nat, p: Point)
    requires Convex(ring) && StrictlyIn(ring, p) && s < |ring|
    ensures (forall v :: v in ring ==> ring[s].y <= v.y) ==> ring[s].y < p.y
    ensures (forall v :: v in ring ==> ring[s].y >= v.y) ==> ring[s].y > p.y
  {
    var r, n := Rotated(ring, s), |ring|;
    RotatedIsConvex(ring, s);
    RotatedSides(ring, s, p);
    assert r[0] in ring && r[1] in ring && r[n - 1] in ring;
    assert LeftTurn(r, 0, 1, n - 1);
    assert Side(r, 0, p) > 0.0 && Side(r, n - 1, p) > 0.0;
    OrientTurns(r[0], r[1], r[n - 1]);
    NotBeyond(r[n - 1], r[0], r[1], p);
  }

  /** Some vertex is above and some is below. */
  lemma VerticesOnBothSides(ring: seq<Point>, p: Point)
    requires Convex(ring) && StrictlyIn(ring, p)
    ensures BothSides(ring, p)
  {
    var low := LowestVertex(ring);
    var high := HighestVertex(ring);
    ExtremeVertex(ring, low, p);
    ExtremeVertex(ring, high, p);
    assert ring[low] in ring && ring[high] in ring;
  }

  lemma ExactFromRisingEdge(ring: seq<Point>, p: Point)
    requires Convex(ring) && Rises(ring, 0, p)
    ensures Exact(ring, p)
  {
    var m := FirstAboveThenBelow(ring, p);
    InsideIsBetween(ring, m, p);
    if StrictlyOut(ring, p) {
      OutsideIsNotBetween(ring, m, p);
    }
  }

  lemma OneSidedIsOutside(ring: seq<Point>, p: Point)
    requires !BothSides(ring, p)
    ensures !Inside(ring, p)
  {
    ClosedVertices(ring);
    SameSideUnmarked(Closed(ring), p, exists v :: v in ring && Above(p, v));
  }

  lemma ExactWhenRotated(ring: seq<Point>, s: nat, p: Point)
    requires s < |ring| && Exact(Rotated(ring, s), p)
    ensures Exact(ring, p)
  {
    VertexListInvariant(ring, s, p);
    RotatedSides(ring, s, p);
  }

  /**
    On every strictly convex ring the parity test is exact: a point strictly to the left of all edges is
    reported inside, a point strictly to the right of some edge outside.
  */
  lemma ConvexIsExact(ring: seq<Point>, p: Point)
    requires Convex(ring)
    ensures StrictlyIn(ring, p) ==> Inside(ring, p)
    ensures StrictlyOut(ring, p) ==> !Inside(ring, p)
  {
    if StrictlyIn(ring, p) {
      VerticesOnBothSides(ring, p);
    }
    if BothSides(ring, p) {
      var s := RisingEdge(ring, p);
      RotatedIsConvex(ring, s);
      ExactFromRisingEdge(Rotated(ring, s), p);
      ExactWhenRotated(ring, s, p);
    } else {
      OneSidedIsOutside(ring, p);
    }
  }
}
