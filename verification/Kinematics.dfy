/** Points seen from a moved robot, and the motion model used to look ahead. */
module Kinematics {
  import opened Plane
  import opened CollisionTypes
  import opened RealArithmetic
  import opened Trigonometry

  /** A point of the initial frame in the frame of the pose. */
  function Transformed(t: Trig, pose: Pose, p: Point): Point {
    var c, s := t.cos(pose.theta), t.sin(pose.theta);
    Point(TurnX(c, -s, p.x - pose.x, p.y - pose.y), TurnY(c, -s, p.x - pose.x, p.y - pose.y))
  }

  function TransformedAll(t: Trig, pose: Pose, points: seq<Point>): seq<Point> {
    seq(|points|, i requires 0 <= i < |points| => Transformed(t, pose, points[i]))
  }

  method TransformPoints(t: Trig, pose: Pose, points: array<Point>)
    modifies points
    ensures points[..] == TransformedAll(t, pose, old(points[..]))
  {
    var cosTheta := t.cos(pose.theta);
    var sinTheta := t.sin(pose.theta);
    for i := 0 to points.Length
      invariant forall k :: 0 <= k < i ==> points[k] == Transformed(t, pose, old(points[k]))
      invariant forall k :: i <= k < points.Length ==> points[k] == old(points[k])
    {
      var mulX := points[i].x - pose.x;
      var mulY := points[i].y - pose.y;
      points[i] := Point(mulX * cosTheta + mulY * sinTheta, -mulX * sinTheta + mulY * cosTheta);
      assert points[i] == Transformed(t, pose, old(points[i]));
    }
  }

  /** Back from the frame of the pose: R * p' + pose. */
  function Placed(t: Trig, pose: Pose, q: Point): Point {
    var c, s := t.cos(pose.theta), t.sin(pose.theta);
    Point(TurnX(c, s, q.x, q.y) + pose.x, TurnY(c, s, q.x, q.y) + pose.y)
  }

  /** The new coordinates are those of the same place: placing them again gives the point back. */
  lemma TransformedIsSamePlace(t: Trig, pose: Pose, p: Point)
    requires t.Lawful()
    ensures Placed(t, pose, Transformed(t, pose, p)) == p
  {
    assert t.UnitCircle(pose.theta);
    TurnBack(t.cos(pose.theta), t.sin(pose.theta), p.x - pose.x, p.y - pose.y);
  }

  /** A point d ahead of the robot and e to its left has the coordinates (d, e) in the robot's frame. */
  lemma AheadAndLeft(t: Trig, pose: Pose, d: real, e: real)
    requires t.Lawful()
    ensures var c, s := t.cos(pose.theta), t.sin(pose.theta);
      Transformed(t, pose, Point(pose.x + (d * c - e * s), pose.y + (d * s + e * c))) == Point(d, e)
  {
    assert t.UnitCircle(pose.theta);
    var c, s := t.cos(pose.theta), t.sin(pose.theta);
    var x, y := d * c - e * s, d * s + e * c;
    assert pose.x + x - pose.x == x && pose.y + y - pose.y == y;
    TurnForth(c, s, d, e);
  }

  lemma TurnForth(c: real, s: real, d: real, e: real)
    requires c * c + s * s == 1.0
    ensures TurnX(c, -s, d * c - e * s, d * s + e * c) == d && TurnY(c, -s, d * c - e * s, d * s + e * c) == e
  {
    assert TurnX(c, -s, d * c - e * s, d * s + e * c) == d * (c * c + s * s);
    assert TurnY(c, -s, d * c - e * s, d * s + e * c) == e * (c * c + s * s);
  }

  /** All pairwise distances survive the change of frame. */
  lemma TransformedKeepsDistance(t: Trig, pose: Pose, p: Point, q: Point)
    requires t.Lawful()
    ensures SquaredDistance(Transformed(t, pose, p), Transformed(t, pose, q)) == SquaredDistance(p, q)
  {
    assert t.UnitCircle(pose.theta);
    TurnedDistance(t.cos(pose.theta), -t.sin(pose.theta), p.x - pose.x, p.y - pose.y, q.x - pose.x, q.y - pose.y);
    SameOffsets(pose, p, q);
  }

  lemma TurnedDistance(c: real, s: real, x: real, y: real, u: real, v: real)
    requires c * c + s * s == 1.0
    ensures SquaredDistance(Point(TurnX(c, s, x, y), TurnY(c, s, x, y)), Point(TurnX(c, s, u, v), TurnY(c, s, u, v)))
         == SquaredDistance(Point(x, y), Point(u, v))
  {
    TurnDifference(c, s, x, y, u, v);
    TurnKeepsLength(c, s, x - u, y - v);
  }

  lemma SameOffsets(pose: Pose, p: Point, q: Point)
    ensures SquaredDistance(Point(p.x - pose.x, p.y - pose.y), Point(q.x - pose.x, q.y - pose.y))
        == SquaredDistance(p, q)
  {
    assert (p.x - pose.x) - (q.x - pose.x) == p.x - q.x;
    assert (p.y - pose.y) - (q.y - pose.y) == p.y - q.y;
  }

  // ----- Looking ahead -----------------------------------------------------------------

  /** The initial velocity turned by the angle. */
  function Turned(t: Trig, v: Velocity, a: real): Velocity {
    Velocity(TurnX(t.cos(a), t.sin(a), v.x, v.y), TurnY(t.cos(a), t.sin(a), v.x, v.y), v.tw)
  }

  function Projected(t: Trig, dt: real, pose: Pose, v: Velocity): (Pose, Velocity) {
    (Pose(pose.x + v.x * dt, pose.y + v.y * dt, pose.theta + v.tw * dt), Turned(t, v, v.tw * dt))
  }

  method ProjectState(t: Trig, dt: real, pose: Pose, velocity: Velocity) returns (pose': Pose, velocity': Velocity)
    ensures (pose', velocity') == Projected(t, dt, pose, velocity)
  {
    var theta := velocity.tw * dt;
    var cosTheta := t.cos(theta);
    var sinTheta := t.sin(theta);
    pose' := pose.(x := pose.x + velocity.x * dt, y := pose.y + velocity.y * dt);
    pose' := pose'.(theta := pose'.theta + theta);
    var velocityUpdX := velocity.x * cosTheta - velocity.y * sinTheta;
    var velocityUpdY := velocity.x * sinTheta + velocity.y * cosTheta;
    velocity' := velocity.(x := velocityUpdX, y := velocityUpdY);
    assert velocityUpdX == TurnX(cosTheta, sinTheta, velocity.x, velocity.y);
    assert velocityUpdY == TurnY(cosTheta, sinTheta, velocity.x, velocity.y);
    assert velocity' == Turned(t, velocity, theta);
    assert pose' == Projected(t, dt, pose, velocity).0;
  }

  /** The robot after k projections of length dt from the origin. */
  function Simulated(t: Trig, dt: real, v: Velocity, k: nat): (Pose, Velocity) {
    if k == 0 then (Pose(0.0, 0.0, 0.0), v)
    else var (pose, vel) := Simulated(t, dt, v, k - 1); Projected(t, dt, pose, vel)
  }

  lemma TurnedTwice(t: Trig, v: Velocity, a: real, b: real)
    requires t.Lawful()
    ensures Turned(t, Turned(t, v, a), b) == Turned(t, v, a + b)
  {
    assert t.Sum(a, b);
    TurnTwice(t.cos(a), t.sin(a), t.cos(b), t.sin(b), v.x, v.y);
  }

  /** k equal steps. */
  function Steps(k: nat, step: real): real {
    k as real * step
  }

  lemma OneMore(k: nat, step: real)
    requires k > 0
    ensures Steps(k - 1, step) + step == Steps(k, step)
  {
  }

  lemma ProjectedTurns(t: Trig, dt: real, pose: Pose, v: Velocity, a: real)
    requires t.Lawful() && pose.theta == a
    ensures var next := Projected(t, dt, pose, Turned(t, v, a));
      next.0.theta == a + v.tw * dt && next.1 == Turned(t, v, a + v.tw * dt)
  {
    TurnedTwice(t, v, a, v.tw * dt);
  }

  lemma SimulatedStep(t: Trig, dt: real, v: Velocity, k: nat, a: real)
    requires t.Lawful() && k > 0
    requires Simulated(t, dt, v, k - 1).0.theta == a && Simulated(t, dt, v, k - 1).1 == Turned(t, v, a)
    ensures Simulated(t, dt, v, k).0.theta == a + v.tw * dt
    ensures Simulated(t, dt, v, k).1 == Turned(t, v, a + v.tw * dt)
  {
    ProjectedTurns(t, dt, Simulated(t, dt, v, k - 1).0, v, a);
  }

  /** Closed form of the incremental motion: k steps turn the heading, and the velocity with it, by k times tw * dt. */
  lemma {:induction false} SimulatedClosedForm(t: Trig, dt: real, v: Velocity, k: nat)
    requires t.Lawful()
    ensures Simulated(t, dt, v, k).0.theta == Steps(k, v.tw * dt)
    ensures Simulated(t, dt, v, k).1 == Turned(t, v, Steps(k, v.tw * dt))
  {
    if k == 0 {
      NoTurn(t, v, Steps(0, v.tw * dt));
    } else {
      SimulatedClosedForm(t, dt, v, k - 1);
      SimulatedStep(t, dt, v, k, Steps(k - 1, v.tw * dt));
      OneMore(k, v.tw * dt);
    }
  }

  lemma NoTurn(t: Trig, v: Velocity, a: real)
    requires t.Lawful() && a == 0.0
    ensures Turned(t, v, a) == v
  {
  }

  function SquaredSpeed(v: Velocity): real {
    v.x * v.x + v.y * v.y
  }

  lemma TurnedKeepsSpeed(t: Trig, v: Velocity, a: real)
    requires t.Lawful()
    ensures SquaredSpeed(Turned(t, v, a)) == SquaredSpeed(v)
  {
    assert t.UnitCircle(a);
    TurnKeepsLength(t.cos(a), t.sin(a), v.x, v.y);
  }

  /** Neither the linear nor the angular speed ever changes along the simulation. */
  lemma SimulatedKeepsSpeed(t: Trig, dt: real, v: Velocity, k: nat)
    requires t.Lawful()
    ensures var vel := Simulated(t, dt, v, k).1;
      SquaredSpeed(vel) == SquaredSpeed(v) && vel.tw == v.tw
  {
    SimulatedClosedForm(t, dt, v, k);
    TurnedKeepsSpeed(t, v, Steps(k, v.tw * dt));
  }

  /** Each step moves the robot by its speed times dt. */
  lemma SimulatedStride(t: Trig, dt: real, v: Velocity, k: nat)
    requires t.Lawful()
    ensures var pose, pose' := Simulated(t, dt, v, k).0, Simulated(t, dt, v, k + 1).0;
      SquaredDistance(Point(pose'.x, pose'.y), Point(pose.x, pose.y)) == Product(SquaredSpeed(v), dt * dt)
  {
    SimulatedKeepsSpeed(t, dt, v, k);
    var (pose, vel) := Simulated(t, dt, v, k);
    ProjectedLength(t, dt, pose, vel);
    assert Simulated(t, dt, v, k + 1).0 == Projected(t, dt, pose, vel).0;
  }

  lemma ProjectedLength(t: Trig, dt: real, pose: Pose, v: Velocity)
    ensures var pose' := Projected(t, dt, pose, v).0;
      SquaredDistance(Point(pose'.x, pose'.y), Point(pose.x, pose.y)) == Product(SquaredSpeed(v), dt * dt)
  {
    StepLength(pose.x, pose.y, v.x, v.y, dt);
  }

  lemma StepLength(px: real, py: real, x: real, y: real, dt: real)
    ensures SquaredDistance(Point(px + x * dt, py + y * dt), Point(px, py)) == (x * x + y * y) * (dt * dt)
  {
    assert px + x * dt - px == x * dt && py + y * dt - py == y * dt;
  }

  /** How far a step goes along v turned by a, in x and in y. */
  function StrideX(t: Trig, dt: real, v: Velocity, a: real): real {
    dt * (v.x * t.cos(a) - v.y * t.sin(a))
  }

  function StrideY(t: Trig, dt: real, v: Velocity, a: real): real {
    dt * (v.x * t.sin(a) + v.y * t.cos(a))
  }

  lemma ProjectedStride(t: Trig, dt: real, pose: Pose, v: Velocity, a: real)
    ensures var pose' := Projected(t, dt, pose, Turned(t, v, a)).0;
      pose'.x == pose.x + StrideX(t, dt, v, a) && pose'.y == pose.y + StrideY(t, dt, v, a)
  {
  }

  /** The heading after k steps. */
  function Heading(dt: real, v: Velocity, k: nat): real {
    k as real * (v.tw * dt)
  }

  /** The simulation starts at the origin, and step k goes along the command turned by k times tw * dt. */
  lemma SimulatedDisplacement(t: Trig, dt: real, v: Velocity, k: nat)
    requires t.Lawful()
    ensures var pose, pose', a := Simulated(t, dt, v, k).0, Simulated(t, dt, v, k + 1).0, Heading(dt, v, k);
      pose'.x == pose.x + StrideX(t, dt, v, a) && pose'.y == pose.y + StrideY(t, dt, v, a) && pose.theta == a
    ensures Simulated(t, dt, v, 0).0 == Pose(0.0, 0.0, 0.0)
  {
    SimulatedClosedForm(t, dt, v, k);
    assert Steps(k, v.tw * dt) == Heading(dt, v, k);
    ProjectedStride(t, dt, Simulated(t, dt, v, k).0, v, Heading(dt, v, k));
  }

  /** The robot's place after k steps along the arc, summed up without simulating. */
  function ArcX(t: Trig, dt: real, v: Velocity, k: nat): real {
    if k == 0 then 0.0 else ArcX(t, dt, v, k - 1) + StrideX(t, dt, v, Heading(dt, v, k - 1))
  }

  function ArcY(t: Trig, dt: real, v: Velocity, k: nat): real {
    if k == 0 then 0.0 else ArcY(t, dt, v, k - 1) + StrideY(t, dt, v, Heading(dt, v, k - 1))
  }

  /** The missing half of the closed form: after k steps the robot is at the end of the arc. */
  lemma {:induction false} SimulatedArc(t: Trig, dt: real, v: Velocity, k: nat)
    requires t.Lawful()
    ensures Simulated(t, dt, v, k).0 == Pose(ArcX(t, dt, v, k), ArcY(t, dt, v, k), Heading(dt, v, k))
  {
    SimulatedDisplacement(t, dt, v, k);
    if k > 0 {
      SimulatedArc(t, dt, v, k - 1);
      SimulatedDisplacement(t, dt, v, k - 1);
    }
  }

  lemma StraightStep(t: Trig, dt: real, v: Velocity, pose: Pose)
    requires t.Lawful() && v.tw == 0.0
    ensures Projected(t, dt, pose, v) == (Pose(pose.x + v.x * dt, pose.y + v.y * dt, pose.theta), v)
  {
    assert v.tw * dt == 0.0;
    NoTurn(t, v, v.tw * dt);
    assert Projected(t, dt, pose, v).1 == v;
    assert Projected(t, dt, pose, v).0 == Pose(pose.x + v.x * dt, pose.y + v.y * dt, pose.theta);
  }

  /** Without turning the robot moves on a straight line. */
  lemma {:induction false} StraightMotion(t: Trig, dt: real, v: Velocity, k: nat)
    requires t.Lawful() && v.tw == 0.0
    ensures Simulated(t, dt, v, k) == (Pose(Steps(k, v.x * dt), Steps(k, v.y * dt), 0.0), v)
  {
    if k > 0 {
      StraightMotion(t, dt, v, k - 1);
      StraightStep(t, dt, v, Simulated(t, dt, v, k - 1).0);
      OneMore(k, v.x * dt);
      OneMore(k, v.y * dt);
    }
  }
}
