/** Bounding boxes under rigid motions: what they keep, and when they come back. */
module Boxes {
  import opened Plane
  import opened PlanarTransforms
  import opened RealArithmetic
  import opened Trigonometry

  const FAR := 999999999999999999.99999

  datatype Box = Box(min: Point, max: Point) {
    function Add(p: Point): Box {
      Box(Point(if p.x < min.x then p.x else min.x, if p.y < min.y then p.y else min.y),
          Point(if p.x > max.x then p.x else max.x, if p.y > max.y then p.y else max.y))
    }

    predicate Contains(p: Point) {
      min.x <= p.x <= max.x && min.y <= p.y <= max.y
    }
  }

  const EMPTY_BOX := Box(Point(FAR, FAR), Point(-FAR, -FAR))

  /** The box around the four moved corners. */
  function TransformedBox(a: Rigid, box: Box): Box {
    EMPTY_BOX
    .Add(Apply(a, box.min))
    .Add(Apply(a, box.max))
    .Add(Apply(a, Point(box.max.x, box.min.y)))
    .Add(Apply(a, Point(box.min.x, box.max.y)))
  }

  lemma BetweenEnds(a: real, lo: real, v: real, hi: real)
    requires lo <= v <= hi
    ensures a >= 0.0 ==> lo * a <= v * a <= hi * a
    ensures a <= 0.0 ==> hi * a <= v * a <= lo * a
  {
    if a >= 0.0 {
      assert (v - lo) * a >= 0.0 && (hi - v) * a >= 0.0;
    } else {
      assert (v - lo) * (-a) >= 0.0 && (hi - v) * (-a) >= 0.0;
    }
  }

  lemma TurnOrder(c: real, s: real, u: real, v: real, x: real, y: real)
    requires u * c <= x * c && y * s <= v * s
    ensures TurnX(c, s, u, v) <= TurnX(c, s, x, y)
  {
  }

  /** r is at most the first coordinate of every corner turned by (c, s). */
  predicate BelowCorners(r: real, c: real, s: real, lo: Point, hi: Point) {
    && r <= TurnX(c, s, lo.x, lo.y) && r <= TurnX(c, s, hi.x, hi.y)
    && r <= TurnX(c, s, hi.x, lo.y) && r <= TurnX(c, s, lo.x, hi.y)
  }

  predicate AboveCorners(r: real, c: real, s: real, lo: Point, hi: Point) {
    && r >= TurnX(c, s, lo.x, lo.y) && r >= TurnX(c, s, hi.x, hi.y)
    && r >= TurnX(c, s, hi.x, lo.y) && r >= TurnX(c, s, lo.x, hi.y)
  }

  /** What bounds the four corners of a box bounds every point in it. */
  lemma BetweenCorners(c: real, s: real, box: Box, p: Point, r: real)
    requires box.Contains(p)
    ensures BelowCorners(r, c, s, box.min, box.max) ==> r <= TurnX(c, s, p.x, p.y)
    ensures AboveCorners(r, c, s, box.min, box.max) ==> r >= TurnX(c, s, p.x, p.y)
  {
    var lo, hi := box.min, box.max;
    BetweenEnds(c, lo.x, p.x, hi.x);
    BetweenEnds(s, lo.y, p.y, hi.y);
    var (u, u') := if c >= 0.0 then (lo.x, hi.x) else (hi.x, lo.x);
    var (v, v') := if s >= 0.0 then (hi.y, lo.y) else (lo.y, hi.y);
    TurnOrder(c, s, u, v, p.x, p.y);
    TurnOrder(c, s, p.x, p.y, u', v');
  }

  lemma TurnYIsTurnX(c: real, s: real, x: real, y: real)
    ensures TurnY(c, s, x, y) == TurnX(s, -c, x, y)
  {
  }

  /** The box around the moved corners holds every moved point of the old box. */
  lemma TransformedBoxContains(a: Rigid, box: Box, p: Point)
    requires box.Contains(p)
    ensures TransformedBox(a, box).Contains(Apply(a, p))
  {
    var moved, lo, hi := TransformedBox(a, box), box.min, box.max;
    TurnYIsTurnX(a.c, a.s, lo.x, lo.y);
    TurnYIsTurnX(a.c, a.s, hi.x, hi.y);
    TurnYIsTurnX(a.c, a.s, hi.x, lo.y);
    TurnYIsTurnX(a.c, a.s, lo.x, hi.y);
    TurnYIsTurnX(a.c, a.s, p.x, p.y);
    BetweenCorners(a.c, a.s, box, p, moved.min.x - a.x);
    BetweenCorners(a.c, a.s, box, p, moved.max.x - a.x);
    BetweenCorners(a.s, -a.c, box, p, moved.min.y - a.y);
    BetweenCorners(a.s, -a.c, box, p, moved.max.y - a.y);
  }

  // ----- When boxes come back ----------------------------------------------------------

  predicate Ordered(box: Box) {
    box.min.x <= box.max.x && box.min.y <= box.max.y
  }

  /** The start values of the empty box leave such a box as it is. */
  predicate InSight(box: Box) {
    box.min.x <= FAR && box.min.y <= FAR && box.max.x >= -FAR && box.max.y >= -FAR
  }

  predicate Usual(box: Box) {
    Ordered(box) && InSight(box)
  }

  function Clipped(box: Box): Box {
    Box(Point(Min(box.min.x, FAR), Min(box.min.y, FAR)), Point(Max(box.max.x, -FAR), Max(box.max.y, -FAR)))
  }

  function Around(p: Point, q: Point, r: Point, t: Point): Box {
    Box(Point(Min(Min(p.x, q.x), Min(r.x, t.x)), Min(Min(p.y, q.y), Min(r.y, t.y))),
        Point(Max(Max(p.x, q.x), Max(r.x, t.x)), Max(Max(p.y, q.y), Max(r.y, t.y))))
  }

  /** The true bounding box of the moved corners. */
  function MovedBox(a: Rigid, box: Box): Box {
    Around(Apply(a, box.min), Apply(a, box.max),
           Apply(a, Point(box.max.x, box.min.y)), Apply(a, Point(box.min.x, box.max.y)))
  }

  lemma TransformedIsClipped(a: Rigid, box: Box)
    ensures TransformedBox(a, box) == Clipped(MovedBox(a, box))
    ensures Usual(TransformedBox(a, box))
  {
    AddsAreClipped(Apply(a, box.min), Apply(a, box.max),
                   Apply(a, Point(box.max.x, box.min.y)), Apply(a, Point(box.min.x, box.max.y)));
  }

  lemma AddsAreClipped(p: Point, q: Point, r: Point, t: Point)
    ensures EMPTY_BOX.Add(p).Add(q).Add(r).Add(t) == Clipped(Around(p, q, r, t))
    ensures Usual(Clipped(Around(p, q, r, t)))
  {
    AddTwo(EMPTY_BOX, p, q);
    AddTwo(EMPTY_BOX.Add(p).Add(q), r, t);
  }

  lemma AddTwo(box: Box, p: Point, q: Point)
    ensures box.Add(p).Add(q)
         == Box(Point(Min(box.min.x, Min(p.x, q.x)), Min(box.min.y, Min(p.y, q.y))),
                Point(Max(box.max.x, Max(p.x, q.x)), Max(box.max.y, Max(p.y, q.y))))
  {
  }

  /** The box with the given middle and half sizes. */
  function Centred(m: Point, h: Point): Box {
    Box(Point(m.x - h.x, m.y - h.y), Point(m.x + h.x, m.y + h.y))
  }

  function Middle(box: Box): Point {
    Point((box.min.x + box.max.x) / 2.0, (box.min.y + box.max.y) / 2.0)
  }

  function Half(box: Box): Point {
    Point((box.max.x - box.min.x) / 2.0, (box.max.y - box.min.y) / 2.0)
  }

  lemma BoxIsCentred(box: Box)
    ensures Centred(Middle(box), Half(box)) == box
    ensures Ordered(box) <==> Half(box).x >= 0.0 && Half(box).y >= 0.0
  {
  }

  /** Half the size of the box around a turned one. */
  function Spread(a: Rigid, h: Point): Point {
    Point(Product(Abs(a.c), h.x) + Product(Abs(a.s), h.y), Product(Abs(a.s), h.x) + Product(Abs(a.c), h.y))
  }

  lemma MovedCorner(a: Rigid, m: Point, u: real, v: real)
    ensures Apply(a, Point(m.x + u, m.y + v))
         == Point(Apply(a, m).x + (Product(a.c, u) - Product(a.s, v)),
                  Apply(a, m).y + (Product(a.s, u) + Product(a.c, v)))
  {
    TurnSum(a.c, a.s, m.x, m.y, u, v);
  }

  lemma ProductNegates(a: Rigid, h: Point)
    ensures Product(a.c, -h.x) == -Product(a.c, h.x) && Product(a.c, -h.y) == -Product(a.c, h.y)
    ensures Product(a.s, -h.x) == -Product(a.s, h.x) && Product(a.s, -h.y) == -Product(a.s, h.y)
  {
  }

  lemma SizeOfProduct(a: real, u: real)
    requires u >= 0.0
    ensures Product(Abs(a), u) == Abs(Product(a, u))
  {
    AbsProduct(a, u);
  }

  /** The four corners of a box around m, moved: p and q are the shares of its half sizes in x, r and t in y. */
  lemma MovedCorners(a: Rigid, m: Point, h: Point)
    ensures var o, p, q, r, t := Apply(a, m),
              Product(a.c, h.x), Product(a.s, h.y), Product(a.s, h.x), Product(a.c, h.y);
      && Apply(a, Point(m.x - h.x, m.y - h.y)) == Point(o.x + (-p - -q), o.y + (-r + -t))
      && Apply(a, Point(m.x + h.x, m.y + h.y)) == Point(o.x + (p - q), o.y + (r + t))
      && Apply(a, Point(m.x + h.x, m.y - h.y)) == Point(o.x + (p - -q), o.y + (r + -t))
      && Apply(a, Point(m.x - h.x, m.y + h.y)) == Point(o.x + (-p - q), o.y + (-r + t))
  {
    MovedCorner(a, m, -h.x, -h.y);
    MovedCorner(a, m, h.x, h.y);
    MovedCorner(a, m, h.x, -h.y);
    MovedCorner(a, m, -h.x, h.y);
    ProductNegates(a, h);
    assert Point(m.x - h.x, m.y - h.y) == Point(m.x + -h.x, m.y + -h.y);
    assert Point(m.x + h.x, m.y - h.y) == Point(m.x + h.x, m.y + -h.y);
    assert Point(m.x - h.x, m.y + h.y) == Point(m.x + -h.x, m.y + h.y);
  }

  /** The box around a moved box of a given middle and size. */
  lemma MovedForm(a: Rigid, m: Point, h: Point)
    requires h.x >= 0.0 && h.y >= 0.0
    ensures MovedBox(a, Centred(m, h)) == Centred(Apply(a, m), Spread(a, h))
  {
    MovedCorners(a, m, h);
    SizeOfProduct(a.c, h.x);
    SizeOfProduct(a.c, h.y);
    SizeOfProduct(a.s, h.x);
    SizeOfProduct(a.s, h.y);
    AroundCross(Apply(a, m), Product(a.c, h.x), Product(a.s, h.y), Product(a.s, h.x), Product(a.c, h.y));
  }

  lemma AroundCross(m: Point, p: real, q: real, r: real, t: real)
    ensures Around(Point(m.x + (-p - -q), m.y + (-r + -t)), Point(m.x + (p - q), m.y + (r + t)),
                   Point(m.x + (p - -q), m.y + (r + -t)), Point(m.x + (-p - q), m.y + (-r + t)))
         == Centred(m, Point(Abs(p) + Abs(q), Abs(r) + Abs(t)))
  {
  }

  /** The new width is |c| w + |s| h and the new height |s| w + |c| h. */
  lemma TurnedSize(a: Rigid, box: Box)
    requires Ordered(box) && InSight(MovedBox(a, box))
    ensures var moved := TransformedBox(a, box);
      var w, h := box.max.x - box.min.x, box.max.y - box.min.y;
      && moved.max.x - moved.min.x == Product(Abs(a.c), w) + Product(Abs(a.s), h)
      && moved.max.y - moved.min.y == Product(Abs(a.s), w) + Product(Abs(a.c), h)
  {
    var h := Half(box);
    BoxIsCentred(box);
    MovedForm(a, Middle(box), h);
    TransformedIsClipped(a, box);
    Spreads(Abs(a.c), h.x, h.x);
    Spreads(Abs(a.c), h.y, h.y);
    Spreads(Abs(a.s), h.x, h.x);
    Spreads(Abs(a.s), h.y, h.y);
    assert h.x + h.x == box.max.x - box.min.x && h.y + h.y == box.max.y - box.min.y;
  }

  /** How much there and back adds to either side. */
  function Overlap(a: Rigid, u: real): real {
    Product(2.0 * Product(Abs(a.c), Abs(a.s)), u)
  }

  lemma UnitAbs(c: real, s: real, u: real)
    requires c * c + s * s == 1.0
    ensures Product(Abs(c), Product(Abs(c), u)) + Product(Abs(s), Product(Abs(s), u)) == u
  {
    assert Abs(c) * Abs(c) == c * c && Abs(s) * Abs(s) == s * s;
    assert Abs(c) * (Abs(c) * u) + Abs(s) * (Abs(s) * u) == u * (Abs(c) * Abs(c) + Abs(s) * Abs(s));
  }

  lemma CrossTerms(c: real, s: real, u: real)
    ensures Product(c, Product(s, u)) + Product(s, Product(c, u)) == Product(2.0 * Product(c, s), u)
  {
  }

  lemma SpreadTwice(a: Rigid, h: Point)
    requires a.Proper()
    ensures Spread(Inverse(a), Spread(a, h)) == Point(h.x + Overlap(a, h.y), h.y + Overlap(a, h.x))
  {
    var c, s := Abs(a.c), Abs(a.s);
    var (p, q, r, t) := (Product(c, h.x), Product(s, h.y), Product(s, h.x), Product(c, h.y));
    Spreads(c, p, q);
    Spreads(s, p, q);
    Spreads(c, r, t);
    Spreads(s, r, t);
    UnitAbs(a.c, a.s, h.x);
    UnitAbs(a.c, a.s, h.y);
    CrossTerms(c, s, h.x);
    CrossTerms(c, s, h.y);
  }

  lemma Spreads(f: real, a: real, b: real)
    ensures Product(f, a + b) == Product(f, a) + Product(f, b)
  {
  }

  lemma ProductIsZero(u: real, v: real)
    ensures Product(u, v) == 0.0 <==> u == 0.0 || v == 0.0
    ensures u >= 0.0 && v >= 0.0 ==> Product(u, v) >= 0.0
  {
    SignOfProduct(u, v);
  }

  lemma OverlapIsZero(a: Rigid, u: real)
    requires u >= 0.0
    ensures Overlap(a, u) >= 0.0
    ensures Overlap(a, u) == 0.0 <==> a.c == 0.0 || a.s == 0.0 || u == 0.0
  {
    ProductIsZero(Abs(a.c), Abs(a.s));
    ProductIsZero(2.0 * Product(Abs(a.c), Abs(a.s)), u);
  }

  /** There and back, when the moved box stayed in sight: each side moves out by half of what the turn adds. */
  lemma ThereAndBack(a: Rigid, box: Box)
    requires a.Proper() && Usual(box) && InSight(MovedBox(a, box))
    ensures var h := Half(box);
      TransformedBox(Inverse(a), TransformedBox(a, box))
        == Centred(Middle(box), Point(h.x + Overlap(a, h.y), h.y + Overlap(a, h.x)))
  {
    var m, h := Middle(box), Half(box);
    BoxIsCentred(box);
    MovedForm(a, m, h);
    TransformedIsClipped(a, box);
    var moved := Centred(Apply(a, m), Spread(a, h));
    assert TransformedBox(a, box) == moved;
    SpreadIsPositive(a, h);
    MovedForm(Inverse(a), Apply(a, m), Spread(a, h));
    SpreadTwice(a, h);
    Return(a, m);
    OverlapIsZero(a, h.x);
    OverlapIsZero(a, h.y);
    TransformedIsClipped(Inverse(a), moved);
  }

  lemma SpreadIsPositive(a: Rigid, h: Point)
    requires h.x >= 0.0 && h.y >= 0.0
    ensures Spread(a, h).x >= 0.0 && Spread(a, h).y >= 0.0
  {
    ProductIsZero(Abs(a.c), h.x);
    ProductIsZero(Abs(a.c), h.y);
    ProductIsZero(Abs(a.s), h.x);
    ProductIsZero(Abs(a.s), h.y);
  }

  lemma Return(a: Rigid, p: Point)
    requires a.Proper()
    ensures Apply(Inverse(a), Apply(a, p)) == p
  {
    ApplyCompose(Inverse(a), a, p);
    InverseCancels(a);
    ApplyIdentity(p);
  }

  /** A larger box has a larger image. */
  lemma SpreadGrows(a: Rigid, h: Point, g: Point)
    requires a.Proper() && h.x <= g.x && h.y <= g.y && h != g
    ensures Spread(a, h).x < Spread(a, g).x || Spread(a, h).y < Spread(a, g).y
    ensures Spread(a, h).x <= Spread(a, g).x && Spread(a, h).y <= Spread(a, g).y
  {
    var c, s, d := Abs(a.c), Abs(a.s), Point(g.x - h.x, g.y - h.y);
    Spreads(c, h.x, d.x);
    Spreads(c, h.y, d.y);
    Spreads(s, h.x, d.x);
    Spreads(s, h.y, d.y);
    ProductIsZero(c, d.x);
    ProductIsZero(c, d.y);
    ProductIsZero(s, d.x);
    ProductIsZero(s, d.y);
    assert c != 0.0 || s != 0.0;
  }

  lemma ClippedGrows(box: Box)
    requires Ordered(box)
    ensures Half(box).x <= Half(Clipped(box)).x && Half(box).y <= Half(Clipped(box)).y
    ensures !InSight(box) ==> Half(box) != Half(Clipped(box))
  {
  }

  lemma HalfOfCentred(m: Point, h: Point)
    ensures Half(Centred(m, h)) == h
  {
  }

  /** Moving an ordered box spreads its half sizes, and clipping only adds to them. */
  lemma TransformedHalf(a: Rigid, box: Box)
    requires Ordered(box)
    ensures var h, g := Spread(a, Half(box)), Half(TransformedBox(a, box));
      h.x >= 0.0 && h.y >= 0.0 && h.x <= g.x && h.y <= g.y && (!InSight(MovedBox(a, box)) ==> h != g)
  {
    var m, h := Middle(box), Half(box);
    BoxIsCentred(box);
    MovedForm(a, m, h);
    SpreadIsPositive(a, h);
    HalfOfCentred(Apply(a, m), Spread(a, h));
    BoxIsCentred(MovedBox(a, box));
    TransformedIsClipped(a, box);
    ClippedGrows(MovedBox(a, box));
  }

  /** Once the moved box was cut at the start values, any way back makes a strictly larger box. */
  lemma OutOfSightGrows(a: Rigid, back: Rigid, box: Box)
    requires Ordered(box) && !InSight(MovedBox(a, box)) && back.Proper()
    requires var h, g := Half(box), Spread(back, Spread(a, Half(box))); h.x <= g.x && h.y <= g.y
    ensures TransformedBox(back, TransformedBox(a, box)) != box
  {
    var h, moved := Half(box), TransformedBox(a, box);
    TransformedIsClipped(a, box);
    TransformedHalf(a, box);
    TransformedHalf(back, moved);
    SpreadGrows(back, Spread(a, h), Half(moved));
  }

  lemma InverseIsProper(a: Rigid)
    requires a.Proper()
    ensures Inverse(a).Proper()
  {
  }

  lemma NeverSmaller(a: Rigid, h: Point)
    requires a.Proper() && h.x >= 0.0 && h.y >= 0.0
    ensures var g := Spread(Inverse(a), Spread(a, h)); h.x <= g.x && h.y <= g.y
  {
    SpreadTwice(a, h);
    OverlapIsZero(a, h.x);
    OverlapIsZero(a, h.y);
  }

  /**
    Exactly when a box comes back from a motion and its inverse: the start values cut nothing off, and
    the turn is a multiple of a right angle or the box a single point.
  */
  lemma BoxReturnsExactly(a: Rigid, box: Box)
    requires a.Proper()
    ensures TransformedBox(Inverse(a), TransformedBox(a, box)) == box
      <==> && Usual(box) && InSight(MovedBox(a, box))
           && (a.c == 0.0 || a.s == 0.0 || box.min == box.max)
  {
    TransformedIsClipped(Inverse(a), TransformedBox(a, box));
    if Usual(box) {
      if InSight(MovedBox(a, box)) {
        var h := Half(box);
        BoxIsCentred(box);
        ThereAndBack(a, box);
        OverlapIsZero(a, h.x);
        OverlapIsZero(a, h.y);
      } else {
        BoxIsCentred(box);
        NeverSmaller(a, Half(box));
        InverseIsProper(a);
        OutOfSightGrows(a, Inverse(a), box);
      }
    }
  }

  /** The identity keeps exactly the boxes that the start values do not cut. */
  lemma IdentityKeepsBox(box: Box)
    ensures TransformedBox(IDENTITY, box) == box <==> Usual(box)
    ensures Usual(box) <==>
      && box.min.x <= box.max.x && box.min.x <= 999999999999999999.99999 && -999999999999999999.99999 <= box.max.x
      && box.min.y <= box.max.y && box.min.y <= 999999999999999999.99999 && -999999999999999999.99999 <= box.max.y
  {
    TransformedIsClipped(IDENTITY, box);
    ApplyIdentity(box.min);
    ApplyIdentity(box.max);
    ApplyIdentity(Point(box.max.x, box.min.y));
    ApplyIdentity(Point(box.min.x, box.max.y));
  }

  predicate GrowsThereAndBack(a: Rigid, box: Box) {
    var again := TransformedBox(Inverse(a), TransformedBox(a, box));
    && again.min.x < box.min.x && again.min.y < box.min.y
    && again.max.x > box.max.x && again.max.y > box.max.y
  }

  /** A turn off the axes and the turn back push every side of a real box outwards. */
  lemma EverySideGrows(a: Rigid, box: Box)
    requires a.Proper() && a.c != 0.0 && a.s != 0.0
    requires box.min.x < box.max.x && box.min.y < box.max.y && InSight(box) && InSight(MovedBox(a, box))
    ensures GrowsThereAndBack(a, box)
  {
    BoxIsCentred(box);
    ThereAndBack(a, box);
    OverlapIsZero(a, Half(box).x);
    OverlapIsZero(a, Half(box).y);
  }

  lemma TurnedUnitBox()
    ensures var turn, h := Rigid(0.6, 0.8, 0.0, 0.0), Point(0.5, 0.5);
      turn.Proper() && Apply(turn, h) == Point(-0.1, 0.7) && Spread(turn, h) == Point(0.7, 0.7)
  {
    assert Product(0.6, 0.5) == 0.3 && Product(0.8, 0.5) == 0.4;
  }

  lemma UnitBoxGrows(a: Rigid, h: Point)
    requires a.Proper() && a.c != 0.0 && a.s != 0.0
    requires h == Point(0.5, 0.5) && Apply(a, h) == Point(-0.1, 0.7) && Spread(a, h) == Point(0.7, 0.7)
    ensures GrowsThereAndBack(a, Centred(h, h))
  {
    MovedForm(a, h, h);
    EverySideGrows(a, Centred(h, h));
  }

  /** A turn and a box that the turn and the turn back leave larger on every side. */
  lemma BoxGrowsThereAndBack() returns (turn: Rigid, box: Box)
    ensures turn.Proper() && Usual(box) && GrowsThereAndBack(turn, box)
  {
    turn, box := Rigid(0.6, 0.8, 0.0, 0.0), Centred(Point(0.5, 0.5), Point(0.5, 0.5));
    TurnedUnitBox();
    UnitBoxGrows(turn, Point(0.5, 0.5));
  }
}
