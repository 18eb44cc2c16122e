/** The ray-crossing test for a point against a closed vertex ring, over exact reals. */
module RayCrossing {
  import opened Plane
  import opened Sequences
  import opened CyclicParity
  import opened RealArithmetic

  /** Exactly one end of the edge lies at or above the point's height. */
  predicate Straddles(p: Point, a: Point, b: Point) {
    (p.y <= a.y) == (p.y > b.y)
  }

  /** Where the line through the edge meets the height of the point; a straddling edge is never level. */
  function Intersection(p: Point, a: Point, b: Point): real
    requires a.y != b.y
  {
    a.x + Ratio(Product(p.y - a.y, b.x - a.x), b.y - a.y)
  }

  /** The ray from p towards +X meets the edge. */
  predicate Crosses(p: Point, a: Point, b: Point) {
    Straddles(p, a, b) && Intersection(p, a, b) > p.x
  }

  function Ray(p: Point): (Point, Point) -> bool {
    (a: Point, b: Point) => Crosses(p, a, b)
  }

  /** The ray meets an odd number of the ring's edges. */
  predicate Inside(ring: seq<Point>, p: Point) {
    OddRing(Ray(p), ring)
  }

  method CrossesEdge(point: Point, a: Point, b: Point) returns (crosses: bool)
    ensures crosses == Crosses(point, a, b)
  {
    crosses := false;
    if (point.y <= a.y) == (point.y > b.y) {
      var xInter := a.x + Ratio(Product(point.y - a.y, b.x - a.x), b.y - a.y);
      if xInter > point.x {
        crosses := true;
      }
    }
  }

  method IsPointInside(poly: seq<Point>, point: Point) returns (res: bool)
    ensures res == Inside(poly, point)
  {
    var i := |poly| - 1;
    res := false;
    for j := 0 to |poly|
      invariant i == if j == 0 then |poly| - 1 else j - 1
      invariant poly == [] ==> !res
      invariant poly != [] ==> res == OddPath(Ray(point), Closed(poly)[..j + 1])
    {
      var crosses := CrossesEdge(point, poly[i], poly[j]);
      if crosses {
        res := !res;
      }
      OneMoreEdge(Ray(point), Closed(poly), j);
      i := j;
    }
    assert poly != [] ==> Closed(poly)[..|poly| + 1] == Closed(poly);
  }

  // ----- Crossing an edge --------------------------------------------------------------

  /** Twice the signed area of the triangle a, b, p: positive when p is to the left of a-b. */
  function Orient(a: Point, b: Point, p: Point): real {
    (b.x - a.x) * (p.y - a.y) - (b.y - a.y) * (p.x - a.x)
  }

  lemma SplitArea(w: real, h: real, x: real, y: real)
    ensures w * y - h * x == Product(y, w) + Product(-x, h)
    ensures w * y - h * x == Product(w - x, y) + Product(-x, h - y)
  {
    assert (w - x) * y == w * y - x * y;
    assert (-x) * (h - y) == x * y - h * x;
  }

  lemma OrientAsProducts(a: Point, b: Point, p: Point)
    ensures Orient(a, b, p) == Product(p.y - a.y, b.x - a.x) + Product(a.x - p.x, b.y - a.y)
    ensures Orient(a, b, p) == Product(b.x - p.x, p.y - a.y) + Product(a.x - p.x, b.y - p.y)
  {
    SplitArea(b.x - a.x, b.y - a.y, p.x - a.x, p.y - a.y);
  }

  /** An edge that straddles the height is crossed exactly when the point is to its left, seen upwards. */
  lemma CrossesByOrientation(p: Point, a: Point, b: Point)
    requires Straddles(p, a, b)
    ensures Crosses(p, a, b) <==> if b.y > a.y then Orient(a, b, p) > 0.0 else Orient(a, b, p) < 0.0
  {
    var d := b.y - a.y;
    var q := Ratio(Product(p.y - a.y, b.x - a.x), d);
    RatioBack(Product(p.y - a.y, b.x - a.x), d);
    Distribute(q, a.x - p.x, d);
    OrientAsProducts(a, b, p);
    SignOfProduct(q + (a.x - p.x), d);
  }

  lemma CrossesIsSymmetric(p: Point, a: Point, b: Point)
    ensures Crosses(p, a, b) == Crosses(p, b, a)
  {
    if Straddles(p, a, b) {
      CrossesByOrientation(p, a, b);
      CrossesByOrientation(p, b, a);
      assert Orient(a, b, p) == -Orient(b, a, p);
    }
  }

  lemma RayIsSymmetric(p: Point)
    ensures Symmetric(Ray(p))
  {
    forall a, b
      ensures Ray(p)(a, b) == Ray(p)(b, a)
    {
      CrossesIsSymmetric(p, a, b);
    }
  }

  // ----- The vertex list ---------------------------------------------------------------

  /** Reversing the vertex list or starting it elsewhere does not change the answer. */
  lemma VertexListInvariant(ring: seq<Point>, k: nat, p: Point)
    requires k <= |ring|
    ensures Inside(Reversed(ring), p) == Inside(ring, p)
    ensures Inside(ring[k..] + ring[..k], p) == Inside(ring, p)
  {
    RayIsSymmetric(p);
    ReversalInvariant(Ray(p), ring);
    RotationInvariant(Ray(p), ring, k);
  }

  /** Cutting the ring along any chord: the answer is the exclusive or of the two pieces' answers. */
  lemma InsideIsAdditive(ring: seq<Point>, i: nat, j: nat, p: Point)
    requires i <= j < |ring|
    ensures Inside(ring, p) == (Inside(ring[i..j + 1], p) != Inside(ring[j..] + ring[..i + 1], p))
  {
    RayIsSymmetric(p);
    ChordAdditivity(Ray(p), ring, i, j);
  }

  /** For any ring and any point the answer is that of the triangle fan at the first vertex. */
  lemma InsideIsFan(ring: seq<Point>, p: Point)
    ensures Inside(ring, p) == OddFan(Ray(p), ring)
  {
    RayIsSymmetric(p);
    FanDecomposition(Ray(p), ring);
  }

  // ----- Bounding box ------------------------------------------------------------------

  function AtOrAbove(p: Point): Point -> bool {
    (v: Point) => p.y <= v.y
  }

  function Straddling(p: Point): (Point, Point) -> bool {
    (a: Point, b: Point) => Straddles(p, a, b)
  }

  /** The number of edges that pass the half-open straddle test is even for every closed ring. */
  lemma StraddlingEdgesAreEven(ring: seq<Point>, p: Point)
    ensures !OddRing(Straddling(p), ring)
  {
    RingChangesEven(AtOrAbove(p), ring);
    SameMarks(Straddling(p), Changes(AtOrAbove(p)), Closed(ring));
  }

  /** A crossing lies between the ends of its edge. */
  lemma CrossingIsBetween(p: Point, a: Point, b: Point)
    requires Straddles(p, a, b)
    ensures p.x < a.x && p.x < b.x ==> Crosses(p, a, b)
    ensures p.x > a.x && p.x > b.x ==> !Crosses(p, a, b)
  {
    CrossesByOrientation(p, a, b);
    OrientAsProducts(a, b, p);
    SignOfProduct(b.x - p.x, p.y - a.y);
    SignOfProduct(a.x - p.x, b.y - p.y);
  }

  lemma ClosedVertices(ring: seq<Point>)
    ensures forall v :: v in Closed(ring) ==> v in ring
  {
  }

  /** A point strictly beyond all vertices on any one of the four sides is reported outside. */
  lemma OutsideBoundingBox(ring: seq<Point>, p: Point)
    requires
      || (forall v :: v in ring ==> p.x < v.x)
      || (forall v :: v in ring ==> p.x > v.x)
      || (forall v :: v in ring ==> p.y < v.y)
      || (forall v :: v in ring ==> p.y > v.y)
    ensures !Inside(ring, p)
  {
    var path := Closed(ring);
    ClosedVertices(ring);
    if forall v :: v in ring ==> p.x < v.x {
      forall k | 0 <= k < |path| - 1
        ensures Ray(p)(path[k], path[k + 1]) == Straddling(p)(path[k], path[k + 1])
      {
        assert path[k] in ring && path[k + 1] in ring;
        if Straddles(p, path[k], path[k + 1]) {
          CrossingIsBetween(p, path[k], path[k + 1]);
        }
      }
      SameMarks(Ray(p), Straddling(p), path);
      StraddlingEdgesAreEven(ring, p);
    } else {
      forall a, b | a in path && b in path
        ensures !Ray(p)(a, b)
      {
        assert a in ring && b in ring;
        if Straddles(p, a, b) {
          CrossingIsBetween(p, a, b);
        }
      }
      NoMarks(Ray(p), path);
    }
  }

  // ----- Triangles ---------------------------------------------------------------------

  predicate StrictlyInTriangle(a: Point, b: Point, c: Point, p: Point) {
    || (Orient(a, b, p) > 0.0 && Orient(b, c, p) > 0.0 && Orient(c, a, p) > 0.0)
    || (Orient(a, b, p) < 0.0 && Orient(b, c, p) < 0.0 && Orient(c, a, p) < 0.0)
  }

  /** Some side of the triangle has p and the opposite vertex strictly on different sides. */
  predicate StrictlyOutTriangle(a: Point, b: Point, c: Point, p: Point) {
    var area := Orient(a, b, c);
    || (area > 0.0 && (Orient(a, b, p) < 0.0 || Orient(b, c, p) < 0.0 || Orient(c, a, p) < 0.0))
    || (area < 0.0 && (Orient(a, b, p) > 0.0 || Orient(b, c, p) > 0.0 || Orient(c, a, p) > 0.0))
  }

  lemma TriangleParity(a: Point, b: Point, c: Point, p: Point)
    ensures Inside([a, b, c], p) == (Crosses(p, c, a) != (Crosses(p, a, b) != Crosses(p, b, c)))
  {
    var path := Closed([a, b, c]);
    assert path == [c, a, b, c] && path[..4] == path;
    OneMoreEdge(Ray(p), path, 0);
    OneMoreEdge(Ray(p), path, 1);
    OneMoreEdge(Ray(p), path, 2);
  }

  /** The three signed areas add up, and weigh the heights of the opposite vertices. */
  lemma Barycentric(a: Point, b: Point, c: Point, p: Point)
    ensures Orient(a, b, p) + Orient(b, c, p) + Orient(c, a, p) == Orient(a, b, c)
    ensures Orient(b, c, p) * (a.y - p.y) + Orient(c, a, p) * (b.y - p.y) + Orient(a, b, p) * (c.y - p.y) == 0.0
  {
  }

  /** Seen from an edge the ray's crossings follow the sign of the area and the direction of the edge. */
  lemma EdgeCrossing(p: Point, a: Point, b: Point)
    ensures Crosses(p, a, b) <==>
      (p.y <= b.y && p.y > a.y && Orient(a, b, p) > 0.0) || (p.y <= a.y && p.y > b.y && Orient(a, b, p) < 0.0)
  {
    if Straddles(p, a, b) {
      CrossesByOrientation(p, a, b);
    }
  }

  lemma WeighedSigns(u: real, h: real)
    ensures u > 0.0 && h > 0.0 ==> u * h > 0.0
    ensures u > 0.0 && h < 0.0 ==> u * h < 0.0
    ensures u >= 0.0 && h >= 0.0 ==> u * h >= 0.0
    ensures u >= 0.0 && h <= 0.0 ==> u * h <= 0.0
    ensures u < 0.0 && h > 0.0 ==> u * h < 0.0
    ensures u < 0.0 && h < 0.0 ==> u * h > 0.0
    ensures u <= 0.0 && h >= 0.0 ==> u * h <= 0.0
    ensures u <= 0.0 && h <= 0.0 ==> u * h >= 0.0
  {
  }

  /** The area of the side opposite each vertex, weighed with the vertex's height over p, sums to nothing. */
  lemma WeighedHeights(a: Point, b: Point, c: Point, p: Point)
    ensures var u, v, w := Orient(b, c, p), Orient(c, a, p), Orient(a, b, p);
      && u + v + w == Orient(a, b, c)
      && u * (a.y - p.y) + v * (b.y - p.y) + w * (c.y - p.y) == 0.0
  {
    Barycentric(a, b, c, p);
  }

  lemma SignsFromHeights(u: real, v: real, w: real, h: real, i: real, j: real)
    requires u * h + v * i + w * j == 0.0
    ensures u > 0.0 && v > 0.0 && w > 0.0 ==> (h > 0.0 || i > 0.0 || j > 0.0 || (h == 0.0 && i == 0.0 && j == 0.0))
    ensures u > 0.0 && v > 0.0 && w > 0.0 ==> (h < 0.0 || i < 0.0 || j < 0.0 || (h == 0.0 && i == 0.0 && j == 0.0))
  {
    WeighedSigns(u, h);
    WeighedSigns(v, i);
    WeighedSigns(w, j);
  }

  /** A point strictly inside a triangle given counter-clockwise is reported inside. */
  lemma InsideCounterClockwise(a: Point, b: Point, c: Point, p: Point)
    requires Orient(a, b, p) > 0.0 && Orient(b, c, p) > 0.0 && Orient(c, a, p) > 0.0
    ensures Inside([a, b, c], p)
  {
    TriangleParity(a, b, c, p);
    EdgeCrossing(p, a, b);
    EdgeCrossing(p, b, c);
    EdgeCrossing(p, c, a);
    WeighedHeights(a, b, c, p);
    SignsFromHeights(Orient(b, c, p), Orient(c, a, p), Orient(a, b, p), a.y - p.y, b.y - p.y, c.y - p.y);
    LevelEdge(a, b, p);
  }

  lemma LevelEdge(a: Point, b: Point, p: Point)
    ensures a.y == p.y && b.y == p.y ==> Orient(a, b, p) == 0.0
  {
  }

  /** What the areas' signs must be when one vertex is alone on its side of the height. */
  lemma LonelySigns(u: real, v: real, w: real, h: real, i: real, j: real)
    requires u * h + v * i + w * j == 0.0
    requires u + v + w > 0.0 && (u < 0.0 || v < 0.0 || w < 0.0)
    ensures h >= 0.0 && i < 0.0 && j < 0.0 ==> (w < 0.0 <==> v > 0.0)
    ensures h < 0.0 && i >= 0.0 && j >= 0.0 ==> (w > 0.0 <==> v < 0.0)
  {
    WeighedSigns(u, h);
    WeighedSigns(v, i);
    WeighedSigns(w, j);
  }

  lemma OutsideLonely(a: Point, b: Point, c: Point, p: Point)
    requires Orient(a, b, c) > 0.0
    requires Orient(a, b, p) < 0.0 || Orient(b, c, p) < 0.0 || Orient(c, a, p) < 0.0
    requires (p.y <= b.y) == (p.y <= c.y)
    ensures !Inside([a, b, c], p)
  {
    TriangleParity(a, b, c, p);
    EdgeCrossing(p, a, b);
    EdgeCrossing(p, b, c);
    EdgeCrossing(p, c, a);
    WeighedHeights(a, b, c, p);
    LonelySigns(Orient(b, c, p), Orient(c, a, p), Orient(a, b, p), a.y - p.y, b.y - p.y, c.y - p.y);
  }

  lemma TurnedTriangle(a: Point, b: Point, c: Point, p: Point)
    ensures Inside([b, c, a], p) == Inside([a, b, c], p)
    ensures Inside([c, b, a], p) == Inside([a, b, c], p)
    ensures Orient(b, c, a) == Orient(a, b, c) == -Orient(c, b, a)
  {
    TriangleParity(a, b, c, p);
    TriangleParity(b, c, a, p);
    TriangleParity(c, b, a, p);
    CrossesIsSymmetric(p, a, b);
    CrossesIsSymmetric(p, b, c);
    CrossesIsSymmetric(p, c, a);
  }

  lemma OutsideCounterClockwise(a: Point, b: Point, c: Point, p: Point)
    requires Orient(a, b, c) > 0.0
    requires Orient(a, b, p) < 0.0 || Orient(b, c, p) < 0.0 || Orient(c, a, p) < 0.0
    ensures !Inside([a, b, c], p)
  {
    TurnedTriangle(a, b, c, p);
    TurnedTriangle(b, c, a, p);
    if (p.y <= b.y) == (p.y <= c.y) {
      OutsideLonely(a, b, c, p);
    } else if (p.y <= c.y) == (p.y <= a.y) {
      OutsideLonely(b, c, a, p);
    } else {
      OutsideLonely(c, a, b, p);
    }
  }

  lemma OrientFlips(a: Point, b: Point, p: Point)
    ensures Orient(b, a, p) == -Orient(a, b, p)
  {
  }

  /**
    On triangles the parity test is geometry: strictly inside points are reported inside, strictly
    outside ones outside.
  */
  lemma TriangleIsExact(a: Point, b: Point, c: Point, p: Point)
    ensures StrictlyInTriangle(a, b, c, p) ==> Inside([a, b, c], p)
    ensures StrictlyOutTriangle(a, b, c, p) ==> !Inside([a, b, c], p)
  {
    TurnedTriangle(a, b, c, p);
    OrientFlips(a, b, p);
    OrientFlips(b, c, p);
    OrientFlips(c, a, p);
    if Orient(a, b, p) > 0.0 && Orient(b, c, p) > 0.0 && Orient(c, a, p) > 0.0 {
      InsideCounterClockwise(a, b, c, p);
    } else if Orient(a, b, p) < 0.0 && Orient(b, c, p) < 0.0 && Orient(c, a, p) < 0.0 {
      InsideCounterClockwise(c, b, a, p);
    }
    if StrictlyOutTriangle(a, b, c, p) {
      if Orient(a, b, c) > 0.0 {
        OutsideCounterClockwise(a, b, c, p);
      } else {
        OutsideCounterClockwise(c, b, a, p);
      }
    }
  }
}
