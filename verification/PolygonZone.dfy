/** A monitored zone: how many data points lie in it, and when the moving robot would carry it into them. */
module PolygonZone {
  import opened Plane
  import opened CollisionTypes
  import opened RayCrossing
  import opened RealArithmetic
  import opened Trigonometry
  import opened Kinematics

  type PointMap = map<string, seq<Point>>

  /** A polygon after its shape update for the current command. */
  datatype Zone = Zone(
    name: string,
    enabled: bool,
    actionType: ActionType,
    ring: seq<Point>,
    sources: seq<string>,
    minPoints: int,
    slowdownRatio: real,
    linearLimit: real,
    angularLimit: real,
    timeBeforeCollision: real,
    simulationTimeStep: real)

  // ----- Counting ----------------------------------------------------------------------

  function CountInside(ring: seq<Point>, points: seq<Point>): nat {
    if points == [] then 0 else (if Inside(ring, points[0]) then 1 else 0) + CountInside(ring, points[1..])
  }

  lemma {:induction false} CountConcat(ring: seq<Point>, a: seq<Point>, b: seq<Point>)
    ensures CountInside(ring, a + b) == CountInside(ring, a) + CountInside(ring, b)
    decreases |a|
  {
    if a == [] {
      assert a + b == b;
    } else {
      CountConcat(ring, a[1..], b);
      assert (a + b)[1..] == a[1..] + b;
    }
  }

  /** The points of the named sources, in the order of the names; a name without data adds nothing. */
  function Collected(names: seq<string>, points: PointMap): seq<Point> {
    if names == [] then []
    else (if names[0] in points then points[names[0]] else []) + Collected(names[1..], points)
  }

  lemma {:induction false} CollectedMore(names: seq<string>, points: PointMap, k: nat)
    requires k < |names|
    ensures Collected(names[..k + 1], points)
         == Collected(names[..k], points) + (if names[k] in points then points[names[k]] else [])
    decreases k
  {
    if k > 0 {
      CollectedMore(names[1..], points, k - 1);
      assert names[..k + 1][1..] == names[1..][..k];
      assert names[..k][1..] == names[1..][..k - 1];
    }
  }

  method GetPointsInside(ring: seq<Point>, points: seq<Point>) returns (num: nat)
    ensures num == CountInside(ring, points)
  {
    num := 0;
    for i := 0 to |points|
      invariant num == CountInside(ring, points[..i])
    {
      var inside := IsPointInside(ring, points[i]);
      if inside {
        num := num + 1;
      }
      CountConcat(ring, points[..i], [points[i]]);
      assert points[..i] + [points[i]] == points[..i + 1];
    }
    assert points[..|points|] == points;
  }

  /** Summing source by source counts the same points as collecting them first. */
  method GetMappedPointsInside(zone: Zone, points: PointMap) returns (num: nat)
    ensures num == CountInside(zone.ring, Collected(zone.sources, points))
  {
    num := 0;
    for i := 0 to |zone.sources|
      invariant num == CountInside(zone.ring, Collected(zone.sources[..i], points))
    {
      var name := zone.sources[i];
      if name in points {
        var more := GetPointsInside(zone.ring, points[name]);
        num := num + more;
      }
      CollectedMore(zone.sources, points, i);
      CountConcat(zone.ring, Collected(zone.sources[..i], points), if name in points then points[name] else []);
    }
    assert zone.sources[..|zone.sources|] == zone.sources;
  }

  // ----- Time before a collision -------------------------------------------------------

  /** The data seen from the robot's pose after k + 1 simulated steps reaches the threshold. */
  predicate Hit(t: Trig, zone: Zone, points: seq<Point>, v: Velocity, k: nat) {
    CountInside(zone.ring, TransformedAll(t, Simulated(t, zone.simulationTimeStep, v, k + 1).0, points))
      >= zone.minPoints
  }

  predicate StaticHit(zone: Zone, points: seq<Point>) {
    CountInside(zone.ring, points) >= zone.minPoints
  }

  /** The loop gets to step k unless it returns before: the times up to it do not exceed the horizon. */
  predicate WithinHorizon(zone: Zone, k: nat) {
    0.0 <= zone.timeBeforeCollision && Steps(k, zone.simulationTimeStep) <= zone.timeBeforeCollision
  }

  /** k is the first simulated step within the horizon that hits. */
  ghost predicate FirstHit(t: Trig, zone: Zone, points: seq<Point>, v: Velocity, k: nat) {
    WithinHorizon(zone, k) && Hit(t, zone, points, v, k) && forall i: nat :: i < k ==> !Hit(t, zone, points, v, i)
  }

  /** What the simulation is for, stated without running it. */
  ghost predicate IsCollisionTime(t: Trig, zone: Zone, points: seq<Point>, v: Velocity, time: real) {
    if StaticHit(zone, points) then time == 0.0
    else
      || (exists k: nat :: FirstHit(t, zone, points, v, k) && time == Steps(k, zone.simulationTimeStep))
      || (time == -1.0 && forall k: nat :: WithinHorizon(zone, k) ==> !Hit(t, zone, points, v, k))
  }

  lemma StepsGrow(i: nat, k: nat, step: real)
    requires i <= k && step > 0.0
    ensures Steps(i, step) <= Steps(k, step)
  {
    assert Steps(k, step) - Steps(i, step) == (k - i) as real * step;
  }

  lemma HorizonIsDownward(zone: Zone, i: nat, k: nat)
    requires i <= k && WithinHorizon(zone, k)
    ensures WithinHorizon(zone, i)
  {
    var step := zone.simulationTimeStep;
    if step > 0.0 {
      StepsGrow(i, k, step);
    } else {
      NoStepForward(i, step);
    }
  }

  lemma NoStepForward(i: nat, step: real)
    requires step <= 0.0
    ensures Steps(i, step) <= 0.0
  {
    assert i as real * -step >= 0.0;
  }

  /** Exactly when the simulation comes to an end. */
  ghost predicate Ends(t: Trig, zone: Zone, points: seq<Point>, v: Velocity) {
    || StaticHit(zone, points) || zone.simulationTimeStep > 0.0 || zone.timeBeforeCollision < 0.0
    || exists k: nat :: Hit(t, zone, points, v, k)
  }

  /** Otherwise every step is within the horizon and none hits, and the loop goes on forever. */
  lemma OtherwiseLoops(t: Trig, zone: Zone, points: seq<Point>, v: Velocity)
    ensures !Ends(t, zone, points, v)
       <==> && !StaticHit(zone, points) && (forall k: nat :: WithinHorizon(zone, k))
            && (forall k: nat :: !Hit(t, zone, points, v, k))
  {
    if zone.simulationTimeStep > 0.0 && zone.timeBeforeCollision >= 0.0 {
      var k := Remaining(zone, 0.0);
      HorizonIsPassed(zone, k);
    } else if zone.timeBeforeCollision >= 0.0 {
      forall k: nat
        ensures WithinHorizon(zone, k)
      {
        NoStepForward(k, zone.simulationTimeStep);
      }
    } else {
      assert !WithinHorizon(zone, 0);
    }
  }

  lemma HorizonIsPassed(zone: Zone, k: nat)
    requires zone.simulationTimeStep > 0.0 && k == Remaining(zone, 0.0)
    ensures !WithinHorizon(zone, k)
  {
    var step, horizon := zone.simulationTimeStep, zone.timeBeforeCollision;
    if horizon >= 0.0 {
      RatioBack(horizon, step);
      Monotone(k as real, Ratio(horizon, step), step);
      assert Product(k as real, step) == Steps(k, step);
    }
  }

  /** Steps still to go before the horizon is passed. */
  ghost function Remaining(zone: Zone, time: real): nat
    requires zone.simulationTimeStep > 0.0
  {
    if time > zone.timeBeforeCollision then 0
    else
      var q := Ratio(zone.timeBeforeCollision - time, zone.simulationTimeStep);
      RatioMonotone(0.0, zone.timeBeforeCollision - time, zone.simulationTimeStep);
      RatioOfZero(zone.simulationTimeStep);
      q.Floor + 1
  }

  lemma RemainingDrops(zone: Zone, time: real)
    requires zone.simulationTimeStep > 0.0 && time <= zone.timeBeforeCollision
    ensures Remaining(zone, time + zone.simulationTimeStep) < Remaining(zone, time)
  {
    var step, left := zone.simulationTimeStep, zone.timeBeforeCollision - time;
    RatioSum(left, step, step);
    RatioOfSelf(step);
    assert zone.timeBeforeCollision - (time + step) == left - step;
  }

  method CollectPoints(sources: seq<string>, points: PointMap) returns (collisionPoints: seq<Point>)
    ensures collisionPoints == Collected(sources, points)
  {
    collisionPoints := [];
    for i := 0 to |sources|
      invariant collisionPoints == Collected(sources[..i], points)
    {
      if sources[i] in points {
        collisionPoints := collisionPoints + points[sources[i]];
      }
      CollectedMore(sources, points, i);
    }
    assert sources[..|sources|] == sources;
  }

  /** How many points lie in the zone when the robot has reached the pose. */
  method CountFrom(t: Trig, zone: Zone, pose: Pose, points: seq<Point>) returns (inside: nat)
    ensures inside == CountInside(zone.ring, TransformedAll(t, pose, points))
  {
    var pointsTransformed := new Point[|points|](i requires 0 <= i < |points| => points[i]);
    assert pointsTransformed[..] == points;
    TransformPoints(t, pose, pointsTransformed);
    inside := GetPointsInside(zone.ring, pointsTransformed[..]);
  }

  method GetCollisionTime(t: Trig, zone: Zone, points: PointMap, velocity: Velocity) returns (time: real)
    requires Ends(t, zone, Collected(zone.sources, points), velocity)
    ensures IsCollisionTime(t, zone, Collected(zone.sources, points), velocity, time)
  {
    var pose := Pose(0.0, 0.0, 0.0);
    var vel := velocity;
    var collisionPoints := CollectPoints(zone.sources, points);

    var inside := GetPointsInside(zone.ring, collisionPoints);
    if inside >= zone.minPoints {
      return 0.0;
    }

    time := 0.0;
    ghost var k: nat := 0;
    ghost var end := EndsBy(t, zone, collisionPoints, velocity);
    while time <= zone.timeBeforeCollision
      invariant time == Steps(k, zone.simulationTimeStep)
      invariant zone.timeBeforeCollision < 0.0 ==> k == 0
      invariant (pose, vel) == Simulated(t, zone.simulationTimeStep, velocity, k)
      invariant forall i: nat :: i < k ==> !Hit(t, zone, collisionPoints, velocity, i)
      decreases ToGo(zone, time, end, k)
    {
      ghost var before := k;
      pose, vel := ProjectState(t, zone.simulationTimeStep, pose, vel);
      assert (pose, vel) == Simulated(t, zone.simulationTimeStep, velocity, k + 1);
      inside := CountFrom(t, zone, pose, collisionPoints);
      if inside >= zone.minPoints {
        assert FirstHit(t, zone, collisionPoints, velocity, k);
        return time;
      }
      OneMore(k + 1, zone.simulationTimeStep);
      ToGoDrops(t, zone, collisionPoints, velocity, time, end, k);
      time := time + zone.simulationTimeStep;
      k := k + 1;
    }
    NoneInHorizon(t, zone, collisionPoints, velocity, k);
    return -1.0;
  }

  /** A step by which the simulation ends if time does not run forward. */
  lemma EndsBy(t: Trig, zone: Zone, points: seq<Point>, v: Velocity) returns (end: nat)
    requires Ends(t, zone, points, v) && !StaticHit(zone, points)
    ensures zone.simulationTimeStep > 0.0 || zone.timeBeforeCollision < 0.0 || Hit(t, zone, points, v, end)
  {
    end := 0;
    if k: nat :| Hit(t, zone, points, v, k) {
      end := k;
    }
  }

  ghost function ToGo(zone: Zone, time: real, end: nat, k: nat): nat {
    if zone.simulationTimeStep > 0.0 then Remaining(zone, time)
    else if k > end then 0
    else end - k + 1
  }

  lemma ToGoDrops(t: Trig, zone: Zone, points: seq<Point>, v: Velocity, time: real, end: nat, k: nat)
    requires 0.0 <= zone.timeBeforeCollision && time <= zone.timeBeforeCollision
    requires zone.simulationTimeStep > 0.0 || Hit(t, zone, points, v, end)
    requires forall i: nat :: i <= k ==> !Hit(t, zone, points, v, i)
    ensures ToGo(zone, time + zone.simulationTimeStep, end, k + 1) < ToGo(zone, time, end, k)
  {
    if zone.simulationTimeStep > 0.0 {
      RemainingDrops(zone, time);
    }
  }

  lemma NoneInHorizon(t: Trig, zone: Zone, points: seq<Point>, v: Velocity, k: nat)
    requires Steps(k, zone.simulationTimeStep) > zone.timeBeforeCollision
    requires forall i: nat :: i < k ==> !Hit(t, zone, points, v, i)
    ensures forall i: nat :: WithinHorizon(zone, i) ==> !Hit(t, zone, points, v, i)
  {
    forall i: nat | WithinHorizon(zone, i)
      ensures i < k
    {
      if i >= k {
        HorizonIsDownward(zone, k, i);
      }
    }
  }

  /** The answer is unique: no two times meet the description. */
  lemma CollisionTimeIsUnique(t: Trig, zone: Zone, points: seq<Point>, v: Velocity, a: real, b: real)
    requires IsCollisionTime(t, zone, points, v, a) && IsCollisionTime(t, zone, points, v, b)
    ensures a == b
  {
    if !StaticHit(zone, points) {
      if j: nat :| FirstHit(t, zone, points, v, j) && a == Steps(j, zone.simulationTimeStep) {
        if k: nat :| FirstHit(t, zone, points, v, k) && b == Steps(k, zone.simulationTimeStep) {
          assert j == k;
        }
      }
    }
  }

  /** A point in the frame of a robot that has driven k steps along its arc. */
  function Seen(t: Trig, dt: real, v: Velocity, k: nat, p: Point): Point {
    var a, x, y := Heading(dt, v, k), p.x - ArcX(t, dt, v, k), p.y - ArcY(t, dt, v, k);
    Point(x * t.cos(a) + y * t.sin(a), y * t.cos(a) - x * t.sin(a))
  }

  function SeenAll(t: Trig, dt: real, v: Velocity, k: nat, points: seq<Point>): seq<Point> {
    seq(|points|, i requires 0 <= i < |points| => Seen(t, dt, v, k, points[i]))
  }

  lemma TransformedIsSeen(t: Trig, dt: real, v: Velocity, k: nat, points: seq<Point>)
    requires t.Lawful()
    ensures TransformedAll(t, Simulated(t, dt, v, k).0, points) == SeenAll(t, dt, v, k, points)
  {
    SimulatedArc(t, dt, v, k);
    forall i | 0 <= i < |points|
      ensures Transformed(t, Simulated(t, dt, v, k).0, points[i]) == Seen(t, dt, v, k, points[i])
    {
      InFrame(t, Simulated(t, dt, v, k).0, points[i]);
    }
  }

  lemma InFrame(t: Trig, pose: Pose, p: Point)
    ensures var c, s, x, y := t.cos(pose.theta), t.sin(pose.theta), p.x - pose.x, p.y - pose.y;
      Transformed(t, pose, p) == Point(x * c + y * s, y * c - x * s)
  {
  }

  /** Enough points lie in the zone once the robot has driven k steps along its arc. */
  predicate Reaches(t: Trig, zone: Zone, points: seq<Point>, v: Velocity, k: nat) {
    CountInside(zone.ring, SeenAll(t, zone.simulationTimeStep, v, k, points)) >= zone.minPoints
  }

  /** The times of the simulated steps do not exceed the horizon up to k. */
  predicate InTime(zone: Zone, k: nat) {
    0.0 <= zone.timeBeforeCollision && k as real * zone.simulationTimeStep <= zone.timeBeforeCollision
  }

  /** k is the first step in time after which one more step reaches the points. */
  ghost predicate FirstReach(t: Trig, zone: Zone, points: seq<Point>, v: Velocity, k: nat) {
    && InTime(zone, k) && Reaches(t, zone, points, v, k + 1)
    && forall i: nat :: 0 < i <= k ==> !Reaches(t, zone, points, v, i)
  }

  lemma HitIsReach(t: Trig, zone: Zone, points: seq<Point>, v: Velocity, k: nat)
    requires t.Lawful()
    ensures Hit(t, zone, points, v, k) <==> Reaches(t, zone, points, v, k + 1)
    ensures WithinHorizon(zone, k) <==> InTime(zone, k)
  {
    TransformedIsSeen(t, zone.simulationTimeStep, v, k + 1, points);
  }

  lemma FirstHitIsFirstReach(t: Trig, zone: Zone, points: seq<Point>, v: Velocity, k: nat)
    requires t.Lawful()
    ensures FirstHit(t, zone, points, v, k) <==> FirstReach(t, zone, points, v, k)
  {
    HitIsReach(t, zone, points, v, k);
    if FirstHit(t, zone, points, v, k) {
      forall i: nat | 0 < i <= k
        ensures !Reaches(t, zone, points, v, i)
      {
        HitIsReach(t, zone, points, v, i - 1);
      }
    }
    if FirstReach(t, zone, points, v, k) {
      forall i: nat | i < k
        ensures !Hit(t, zone, points, v, i)
      {
        HitIsReach(t, zone, points, v, i);
      }
    }
  }

  /**
    The collision time by where the robot goes: 0 when enough points lie in the zone already, else k steps
    for the least k in time after which one more step along the arc reaches them, else -1 if there is none.
  */
  lemma CollisionTimeOnArc(t: Trig, zone: Zone, points: seq<Point>, v: Velocity, time: real)
    requires t.Lawful() && IsCollisionTime(t, zone, points, v, time)
    ensures
      if CountInside(zone.ring, points) >= zone.minPoints then time == 0.0
      else
        || (exists k: nat :: FirstReach(t, zone, points, v, k) && time == Steps(k, zone.simulationTimeStep))
        || (time == -1.0 && forall k: nat :: InTime(zone, k) ==> !Reaches(t, zone, points, v, k + 1))
  {
    if !StaticHit(zone, points) {
      if k: nat :| FirstHit(t, zone, points, v, k) && time == Steps(k, zone.simulationTimeStep) {
        FirstHitIsFirstReach(t, zone, points, v, k);
      } else {
        forall k: nat | InTime(zone, k)
          ensures !Reaches(t, zone, points, v, k + 1)
        {
          HitIsReach(t, zone, points, v, k);
        }
      }
    }
  }

  /** A reported collision time is now or lies within the horizon. */
  lemma CollisionTimeInHorizon(t: Trig, zone: Zone, points: seq<Point>, v: Velocity, time: real)
    requires IsCollisionTime(t, zone, points, v, time)
    ensures time <= 0.0 || time <= zone.timeBeforeCollision
    ensures zone.simulationTimeStep > 0.0 ==> time == -1.0 || time >= 0.0
    ensures StaticHit(zone, points) ==> time == 0.0
  {
    if k: nat :| FirstHit(t, zone, points, v, k) && time == Steps(k, zone.simulationTimeStep) {
      if zone.simulationTimeStep > 0.0 {
        StepsGrow(0, k, zone.simulationTimeStep);
      }
    }
  }

  lemma StillTransform(t: Trig, p: Point)
    requires t.Lawful()
    ensures Transformed(t, Pose(0.0, 0.0, 0.0), p) == p
  {
  }

  /** A robot told to stand still collides with nothing it is not already touching. */
  lemma StandingStillNeverHits(t: Trig, zone: Zone, points: seq<Point>, v: Velocity, time: real)
    requires t.Lawful() && v.IsZero()
    requires IsCollisionTime(t, zone, points, v, time)
    ensures time == if StaticHit(zone, points) then 0.0 else -1.0
  {
    forall k: nat
      ensures Hit(t, zone, points, v, k) == StaticHit(zone, points)
    {
      StraightMotion(t, zone.simulationTimeStep, v, k + 1);
      var pose := Simulated(t, zone.simulationTimeStep, v, k + 1).0;
      assert pose == Pose(0.0, 0.0, 0.0);
      forall i | 0 <= i < |points|
        ensures Transformed(t, pose, points[i]) == points[i]
      {
        StillTransform(t, points[i]);
      }
      assert TransformedAll(t, pose, points) == points;
    }
  }
}
