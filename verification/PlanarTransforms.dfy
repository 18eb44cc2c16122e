/** Rigid motions of the plane. A rotation is the pair (c, s) of its cosine and sine. */
module PlanarTransforms {
  import opened Plane
  import opened RealArithmetic
  import opened Trigonometry

  /** A pose, or the motion that takes the origin to it. */
  datatype Rigid = Rigid(c: real, s: real, x: real, y: real) {
    predicate Proper() {
      c * c + s * s == 1.0
    }
  }

  const IDENTITY := Rigid(1.0, 0.0, 0.0, 0.0)

  function Compose(a: Rigid, b: Rigid): Rigid {
    Rigid(TurnX(a.c, a.s, b.c, b.s), TurnY(a.c, a.s, b.c, b.s),
          TurnX(a.c, a.s, b.x, b.y) + a.x, TurnY(a.c, a.s, b.x, b.y) + a.y)
  }

  function Inverse(a: Rigid): Rigid {
    Rigid(a.c, -a.s, -TurnX(a.c, -a.s, a.x, a.y), -TurnY(a.c, -a.s, a.x, a.y))
  }

  function Apply(a: Rigid, p: Point): Point {
    Point(TurnX(a.c, a.s, p.x, p.y) + a.x, TurnY(a.c, a.s, p.x, p.y) + a.y)
  }

  lemma TurnsCompose(a: Rigid, b: Rigid, x: real, y: real)
    ensures TurnX(a.c, a.s, TurnX(b.c, b.s, x, y), TurnY(b.c, b.s, x, y))
         == TurnX(TurnX(a.c, a.s, b.c, b.s), TurnY(a.c, a.s, b.c, b.s), x, y)
    ensures TurnY(a.c, a.s, TurnX(b.c, b.s, x, y), TurnY(b.c, b.s, x, y))
         == TurnY(TurnX(a.c, a.s, b.c, b.s), TurnY(a.c, a.s, b.c, b.s), x, y)
  {
  }

  lemma TurnSum(c: real, s: real, x: real, y: real, u: real, v: real)
    ensures TurnX(c, s, x + u, y + v) == TurnX(c, s, x, y) + TurnX(c, s, u, v)
    ensures TurnY(c, s, x + u, y + v) == TurnY(c, s, x, y) + TurnY(c, s, u, v)
    ensures TurnX(c, s, -x, -y) == -TurnX(c, s, x, y)
    ensures TurnY(c, s, -x, -y) == -TurnY(c, s, x, y)
  {
  }

  lemma ApplyCompose(a: Rigid, b: Rigid, p: Point)
    ensures Apply(Compose(a, b), p) == Apply(a, Apply(b, p))
  {
    TurnsCompose(a, b, p.x, p.y);
    TurnSum(a.c, a.s, TurnX(b.c, b.s, p.x, p.y), TurnY(b.c, b.s, p.x, p.y), b.x, b.y);
  }

  /** A motion takes the origin to its place and the axes to the turned ones, and keeps what lies between. */
  lemma MovedAxes(a: Rigid, p: Point)
    ensures Apply(a, Point(0.0, 0.0)) == Point(a.x, a.y)
    ensures Apply(a, Point(1.0, 0.0)) == Point(a.x + a.c, a.y + a.s)
    ensures Apply(a, Point(0.0, 1.0)) == Point(a.x - a.s, a.y + a.c)
    ensures var o, u, v := Apply(a, Point(0.0, 0.0)), Apply(a, Point(1.0, 0.0)), Apply(a, Point(0.0, 1.0));
      Apply(a, p) == Point(o.x + p.x * (u.x - o.x) + p.y * (v.x - o.x), o.y + p.x * (u.y - o.y) + p.y * (v.y - o.y))
  {
    assert TurnX(a.c, a.s, 1.0, 0.0) == a.c && TurnY(a.c, a.s, 1.0, 0.0) == a.s;
    assert TurnX(a.c, a.s, 0.0, 1.0) == -a.s && TurnY(a.c, a.s, 0.0, 1.0) == a.c;
    assert TurnX(a.c, a.s, 0.0, 0.0) == 0.0 && TurnY(a.c, a.s, 0.0, 0.0) == 0.0;
  }

  lemma ComposeAssociates(a: Rigid, b: Rigid, d: Rigid)
    ensures Compose(Compose(a, b), d) == Compose(a, Compose(b, d))
  {
    TurnsCompose(a, b, d.c, d.s);
    ApplyCompose(a, b, Point(d.x, d.y));
  }

  lemma ComposeIdentity(a: Rigid)
    ensures Compose(IDENTITY, a) == a
  {
  }

  lemma ApplyIdentity(p: Point)
    ensures Apply(IDENTITY, p) == p
  {
  }

  lemma InverseCancels(a: Rigid)
    requires a.Proper()
    ensures Compose(a, Inverse(a)) == IDENTITY && Compose(Inverse(a), a) == IDENTITY
  {
    InverseRotation(a.c, a.s);
    TurnBack(a.c, a.s, a.x, a.y);
    TurnSum(a.c, a.s, TurnX(a.c, -a.s, a.x, a.y), TurnY(a.c, -a.s, a.x, a.y), 0.0, 0.0);
  }

  lemma InverseRotation(c: real, s: real)
    ensures TurnX(c, s, c, -s) == c * c + s * s && TurnY(c, s, c, -s) == 0.0
    ensures TurnX(c, -s, c, s) == c * c + s * s && TurnY(c, -s, c, s) == 0.0
  {
  }

  /** Taking a correction back and applying the next one leaves only the next one. */
  lemma CorrectionsTelescope(next: Rigid, prev: Rigid, pose: Rigid)
    requires prev.Proper()
    ensures Compose(Compose(next, Inverse(prev)), Compose(prev, pose)) == Compose(next, pose)
  {
    ComposeAssociates(next, Inverse(prev), Compose(prev, pose));
    ComposeAssociates(Inverse(prev), prev, pose);
    InverseCancels(prev);
    ComposeIdentity(pose);
  }

  lemma PointsTelescope(next: Rigid, prev: Rigid, p: Point)
    requires prev.Proper()
    ensures Apply(Compose(next, Inverse(prev)), Apply(prev, p)) == Apply(next, p)
  {
    ApplyCompose(next, Inverse(prev), Apply(prev, p));
    ApplyCompose(Inverse(prev), prev, p);
    InverseCancels(prev);
    ApplyIdentity(p);
  }

  lemma ApplyKeepsDistance(a: Rigid, p: Point, q: Point)
    requires a.Proper()
    ensures SquaredDistance(Apply(a, p), Apply(a, q)) == SquaredDistance(p, q)
  {
    TurnDifference(a.c, a.s, p.x, p.y, q.x, q.y);
    TurnKeepsLength(a.c, a.s, p.x - q.x, p.y - q.y);
    var u, v := Apply(a, p), Apply(a, q);
    assert u.x - v.x == TurnX(a.c, a.s, p.x - q.x, p.y - q.y);
    assert u.y - v.y == TurnY(a.c, a.s, p.x - q.x, p.y - q.y);
  }

  /** A pose is left where it is only by the identity. */
  lemma FixesPoseIffIdentity(a: Rigid, pose: Rigid)
    requires pose.Proper()
    ensures Compose(a, pose) == pose <==> a == IDENTITY
  {
    if Compose(a, pose) == pose {
      ComposeAssociates(a, pose, Inverse(pose));
      InverseCancels(pose);
      assert Compose(a, IDENTITY) == a;
    }
    ComposeIdentity(pose);
  }

  lemma OnlyTurnThatFixes(c: real, s: real, x: real, y: real)
    requires TurnX(c, s, x, y) == x && TurnY(c, s, x, y) == y && (x != 0.0 || y != 0.0)
    ensures c == 1.0 && s == 0.0
  {
    var u := Product(x, x) + Product(y, y);
    SignOfProduct(x, x);
    SignOfProduct(y, y);
    assert Product(c - 1.0, u) == x * (x * c - y * s) + y * (x * s + y * c) - x * x - y * y == 0.0;
    assert Product(s, u) == x * (x * s + y * c) - y * (x * c - y * s) == 0.0;
    SignOfProduct(c - 1.0, u);
    SignOfProduct(s, u);
  }

  /** Two different points are left where they are only by the identity. */
  lemma FixesTwoPoints(a: Rigid, p: Point, q: Point)
    requires p != q && Apply(a, p) == p && Apply(a, q) == q
    ensures a == IDENTITY
  {
    TurnDifference(a.c, a.s, p.x, p.y, q.x, q.y);
    OnlyTurnThatFixes(a.c, a.s, p.x - q.x, p.y - q.y);
  }
}
