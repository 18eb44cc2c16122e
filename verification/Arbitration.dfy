/** Choosing the most restrictive velocity among the zones that fire. */
module Arbitration {
  import opened Wrappers
  import opened Plane
  import opened CollisionTypes
  import opened Trigonometry
  import opened PolygonZone
  import opened RealArithmetic

  /** The linear speed hypot(x, y), as an exact square root. */
  ghost predicate IsHypot(v: Velocity, speed: real) {
    speed >= 0.0 && speed * speed == v.x * v.x + v.y * v.y
  }

  /** std::clamp to [0, 1]. */
  function Clamp01(a: real): real {
    if a < 0.0 then 0.0 else if a > 1.0 then 1.0 else a
  }

  function LimitRatio(zone: Zone, v: Velocity, speed: real): real {
    var linear := if speed != 0.0 then Min(1.0, Ratio(zone.linearLimit, speed)) else 1.0;
    var both := if v.tw != 0.0 then Min(linear, Ratio(zone.angularLimit, Abs(v.tw))) else linear;
    Clamp01(both)
  }

  /** The simulation of an Approach zone comes to an end. */
  ghost predicate Usable(t: Trig, zone: Zone, points: PointMap, v: Velocity) {
    zone.actionType == Approach && zone.ring != [] ==> Ends(t, zone, Collected(zone.sources, points), v)
  }

  // ----- The collision time as a value -------------------------------------------------

  lemma LeastHit(t: Trig, zone: Zone, points: seq<Point>, v: Velocity, k: nat) returns (j: nat)
    requires Hit(t, zone, points, v, k)
    ensures j <= k && Hit(t, zone, points, v, j) && forall i: nat :: i < j ==> !Hit(t, zone, points, v, i)
  {
    j := 0;
    while !Hit(t, zone, points, v, j)
      invariant j <= k
      invariant forall i: nat :: i < j ==> !Hit(t, zone, points, v, i)
      decreases k - j
    {
      j := j + 1;
    }
  }

  lemma CollisionTimeExists(t: Trig, zone: Zone, points: seq<Point>, v: Velocity)
    ensures exists time :: IsCollisionTime(t, zone, points, v, time)
  {
    if StaticHit(zone, points) {
      assert IsCollisionTime(t, zone, points, v, 0.0);
    } else if k: nat :| WithinHorizon(zone, k) && Hit(t, zone, points, v, k) {
      var j := LeastHit(t, zone, points, v, k);
      HorizonIsDownward(zone, j, k);
      assert FirstHit(t, zone, points, v, j);
      assert IsCollisionTime(t, zone, points, v, Kinematics.Steps(j, zone.simulationTimeStep));
    } else {
      assert IsCollisionTime(t, zone, points, v, -1.0);
    }
  }

  ghost function CollisionTime(t: Trig, zone: Zone, points: seq<Point>, v: Velocity): (time: real)
    ensures IsCollisionTime(t, zone, points, v, time)
  {
    CollisionTimeExists(t, zone, points, v);
    var time :| IsCollisionTime(t, zone, points, v, time);
    time
  }

  // ----- One zone ----------------------------------------------------------------------

  /**
    The factor a zone asks for; None when it does not fire. With a zero horizon the source divides zero by
    zero, and no velocity is slower than one that is not a number.
  */
  ghost function ZoneRatio(t: Trig, zone: Zone, points: PointMap, v: Velocity, speed: real): Option<real>
  {
    var data := Collected(zone.sources, points);
    if zone.ring == [] then None
    else match zone.actionType
      case DoNothing => None
      case Stop => if StaticHit(zone, data) then Some(0.0) else None
      case Slowdown => if StaticHit(zone, data) then Some(zone.slowdownRatio) else None
      case Limit => if StaticHit(zone, data) then Some(LimitRatio(zone, v, speed)) else None
      case Approach =>
        var time := CollisionTime(t, zone, data, v);
        if time >= 0.0 && zone.timeBeforeCollision != 0.0 then Some(Ratio(time, zone.timeBeforeCollision)) else None
  }

  /** The action after one zone: Stop overrides, any other zone only when its velocity is slower. */
  ghost function Applied(t: Trig, zone: Zone, points: PointMap, v: Velocity, speed: real, action: Action): Action
  {
    match ZoneRatio(t, zone, points, v, speed)
    case None => action
    case Some(r) =>
      if zone.actionType == Stop then Action(Stop, Velocity(0.0, 0.0, 0.0), zone.name)
      else if v.Scaled(r).Slower(action.reqVel) then Action(zone.actionType, v.Scaled(r), zone.name)
      else action
  }

  method ProcessStopSlowdownLimit(
    t: Trig, zone: Zone, points: PointMap, velocity: Velocity, speed: real, action: Action)
    returns (changed: bool, robotAction: Action)
    requires zone.actionType == Stop || zone.actionType == Slowdown || zone.actionType == Limit
    ensures robotAction == Applied(t, zone, points, velocity, speed, action)
    ensures !changed ==> robotAction == action
    ensures changed ==> robotAction.actionType == zone.actionType && robotAction.polygonName == zone.name
  {
    changed, robotAction := false, action;
    if zone.ring == [] {
      return;
    }
    var inside := GetMappedPointsInside(zone, points);
    if inside >= zone.minPoints {
      if zone.actionType == Stop {
        return true, Action(Stop, Velocity(0.0, 0.0, 0.0), zone.name);
      } else if zone.actionType == Slowdown {
        var safeVel := velocity.Scaled(zone.slowdownRatio);
        if safeVel.Slower(robotAction.reqVel) {
          return true, Action(Slowdown, safeVel, zone.name);
        }
      } else {
        var ratio := 1.0;
        if speed != 0.0 {
          ratio := Min(ratio, Ratio(zone.linearLimit, speed));
        }
        if velocity.tw != 0.0 {
          ratio := Min(ratio, Ratio(zone.angularLimit, Abs(velocity.tw)));
        }
        ratio := Clamp01(ratio);
        var safeVel := velocity.Scaled(ratio);
        if safeVel.Slower(robotAction.reqVel) {
          return true, Action(Limit, safeVel, zone.name);
        }
      }
    }
  }

  method ProcessApproach(t: Trig, zone: Zone, points: PointMap, velocity: Velocity, speed: real, action: Action)
    returns (changed: bool, robotAction: Action)
    requires zone.actionType == Approach && Usable(t, zone, points, velocity)
    ensures robotAction == Applied(t, zone, points, velocity, speed, action)
    ensures !changed ==> robotAction == action
    ensures changed ==> robotAction.actionType == Approach && robotAction.polygonName == zone.name
  {
    changed, robotAction := false, action;
    if zone.ring == [] {
      return;
    }
    var collisionTime := GetCollisionTime(t, zone, points, velocity);
    ghost var data := Collected(zone.sources, points);
    CollisionTimeIsUnique(t, zone, data, velocity, collisionTime, CollisionTime(t, zone, data, velocity));
    if collisionTime >= 0.0 && zone.timeBeforeCollision != 0.0 {
      var changeRatio := Ratio(collisionTime, zone.timeBeforeCollision);
      var safeVel := velocity.Scaled(changeRatio);
      if safeVel.Slower(robotAction.reqVel) {
        return true, Action(Approach, safeVel, zone.name);
      }
    }
  }

  // ----- All zones ---------------------------------------------------------------------

  /** Every zone that is looked at can be. */
  ghost predicate AllUsable(t: Trig, zones: seq<Zone>, enabled: bool, points: PointMap, v: Velocity) {
    forall i :: 0 <= i < |zones| && zones[i].enabled && enabled ==> Usable(t, zones[i], points, v)
  }

  /** The loop over the zones: disabled ones are passed over, and nothing is looked at once the robot must stop. */
  ghost function Arbitrated(
    t: Trig, zones: seq<Zone>, enabled: bool, points: PointMap, v: Velocity, speed: real, action: Action): Action
    decreases |zones|
  {
    if zones == [] then action
    else if !zones[0].enabled || !enabled then Arbitrated(t, zones[1..], enabled, points, v, speed, action)
    else if action.actionType == Stop then action
    else Arbitrated(t, zones[1..], enabled, points, v, speed, Applied(t, zones[0], points, v, speed, action))
  }

  lemma {:induction false} StoppedStays(
    t: Trig, zones: seq<Zone>, enabled: bool, points: PointMap, v: Velocity, speed: real, action: Action)
    requires action.actionType == Stop
    ensures Arbitrated(t, zones, enabled, points, v, speed, action) == action
    decreases |zones|
  {
    if zones != [] {
      StoppedStays(t, zones[1..], enabled, points, v, speed, action);
    }
  }

  method ProcessZones(
    t: Trig, zones: seq<Zone>, enabled: bool, points: PointMap, cmdVelIn: Velocity, speed: real, action: Action)
    returns (robotAction: Action)
    requires action.actionType != Stop ==> AllUsable(t, zones, enabled, points, cmdVelIn)
    ensures robotAction == Arbitrated(t, zones, enabled, points, cmdVelIn, speed, action)
  {
    robotAction := action;
    var i := 0;
    while i < |zones|
      invariant 0 <= i <= |zones|
      invariant action.actionType == Stop ==> robotAction.actionType == Stop
      invariant Arbitrated(t, zones[i..], enabled, points, cmdVelIn, speed, robotAction)
             == Arbitrated(t, zones, enabled, points, cmdVelIn, speed, action)
    {
      var zone := zones[i];
      assert zones[i..][0] == zone && zones[i..][1..] == zones[i + 1..];
      i := i + 1;
      if !zone.enabled || !enabled {
        continue;
      }
      if robotAction.actionType == Stop {
        break;
      }
      var changed: bool;
      if zone.actionType == Stop || zone.actionType == Slowdown || zone.actionType == Limit {
        changed, robotAction := ProcessStopSlowdownLimit(t, zone, points, cmdVelIn, speed, robotAction);
      } else if zone.actionType == Approach {
        changed, robotAction := ProcessApproach(t, zone, points, cmdVelIn, speed, robotAction);
      }
    }
    StoppedOrDone(t, zones, i, enabled, points, cmdVelIn, speed, robotAction);
  }

  lemma StoppedOrDone(
    t: Trig, zones: seq<Zone>, i: nat, enabled: bool, points: PointMap, v: Velocity, speed: real, action: Action)
    requires i <= |zones| && (i == |zones| || action.actionType == Stop)
    ensures Arbitrated(t, zones[i..], enabled, points, v, speed, action) == action
  {
    if action.actionType == Stop {
      StoppedStays(t, zones[i..], enabled, points, v, speed, action);
    }
  }

  // ----- The chosen factor -------------------------------------------------------------

  /** The factors of the enabled zones that fire, in order. */
  ghost function Ratios(t: Trig, zones: seq<Zone>, enabled: bool, points: PointMap, v: Velocity, speed: real): seq<real>
    decreases |zones|
  {
    if zones == [] then []
    else
      var rest := Ratios(t, zones[1..], enabled, points, v, speed);
      var r := ZoneRatio(t, zones[0], points, v, speed);
      if zones[0].enabled && enabled && r.Some? then [r.value] + rest else rest
  }

  /** The new factor when it is smaller in magnitude, else the one kept so far. */
  function Lesser(r: real, k: real): real {
    if Abs(r) < Abs(k) then r else k
  }

  /** Keep the factor of smallest magnitude, the earliest one on ties. */
  function LeastMagnitude(k: real, ratios: seq<real>): real
    decreases |ratios|
  {
    if ratios == [] then k
    else LeastMagnitude(Lesser(ratios[0], k), ratios[1..])
  }

  lemma ScaledNorm(v: Velocity, k: real)
    ensures v.Scaled(k).SquaredNorm() == Product(Product(k, k), v.SquaredNorm())
  {
    SquaresScale(v.x, k);
    SquaresScale(v.y, k);
    SquaresScale(v.tw, k);
  }

  lemma SquaresScale(a: real, k: real)
    ensures (a * k) * (a * k) == (k * k) * (a * a)
  {
  }

  lemma SquareSign(a: real)
    ensures Product(a, a) >= 0.0
    ensures a != 0.0 ==> Product(a, a) > 0.0
  {
    SignOfProduct(a, a);
  }

  lemma NormIsPositive(v: Velocity)
    requires !v.IsZero()
    ensures v.SquaredNorm() > 0.0
  {
    SquareSign(v.x);
    SquareSign(v.y);
    SquareSign(v.tw);
    assert Product(v.x, v.x) + Product(v.y, v.y) + Product(v.tw, v.tw) > 0.0;
  }

  lemma AbsSquare(a: real)
    ensures Product(Abs(a), Abs(a)) == Product(a, a)
  {
  }

  /** Comparing two scalings of a moving command compares the factors' magnitudes. */
  lemma SlowerIsSmallerRatio(v: Velocity, r: real, k: real)
    requires !v.IsZero()
    ensures v.Scaled(r).Slower(v.Scaled(k)) <==> Abs(r) < Abs(k)
  {
    SquareOrder(Abs(r), Abs(k));
    AbsSquare(r);
    AbsSquare(k);
    ScaledNorm(v, r);
    ScaledNorm(v, k);
    NormIsPositive(v);
    Monotone(Product(k, k), Product(r, r), v.SquaredNorm());
  }

  lemma ZeroScaled(v: Velocity, r: real, k: real)
    requires v.IsZero()
    ensures v.Scaled(r) == v.Scaled(k) == Velocity(0.0, 0.0, 0.0)
  {
  }

  lemma ScaledByZero(v: Velocity)
    ensures v.Scaled(0.0) == Velocity(0.0, 0.0, 0.0)
  {
  }

  /** The action holds the command scaled by k; a Stop action has k zero. */
  ghost predicate Tracks(action: Action, v: Velocity, k: real) {
    action.reqVel == v.Scaled(k) && (action.actionType == Stop ==> k == 0.0)
  }

  lemma AppliedTracks(t: Trig, zone: Zone, points: PointMap, v: Velocity, speed: real, action: Action, k: real)
    requires Tracks(action, v, k)
    ensures var r := ZoneRatio(t, zone, points, v, speed);
      Tracks(Applied(t, zone, points, v, speed, action), v,
             if r.Some? then Lesser(r.value, k) else k)
  {
    var r := ZoneRatio(t, zone, points, v, speed);
    if r.Some? {
      ScaledByZero(v);
      if v.IsZero() {
        ZeroScaled(v, r.value, k);
        ZeroScaled(v, k, k);
      } else {
        SlowerIsSmallerRatio(v, r.value, k);
      }
    }
  }

  lemma {:induction false} ZeroStays(ratios: seq<real>)
    ensures LeastMagnitude(0.0, ratios) == 0.0
    decreases |ratios|
  {
    if ratios != [] {
      ZeroStays(ratios[1..]);
    }
  }

  /** The loop over the zones scales the command by the factor of least magnitude. */
  lemma {:induction false} ArbitratedTracks(
    t: Trig, zones: seq<Zone>, enabled: bool, points: PointMap, v: Velocity, speed: real, action: Action, k: real)
    requires Tracks(action, v, k)
    ensures Arbitrated(t, zones, enabled, points, v, speed, action).reqVel
         == v.Scaled(LeastMagnitude(k, Ratios(t, zones, enabled, points, v, speed)))
    decreases |zones|
  {
    if zones != [] {
      var ratios := Ratios(t, zones, enabled, points, v, speed);
      if !zones[0].enabled || !enabled {
        ArbitratedTracks(t, zones[1..], enabled, points, v, speed, action, k);
      } else if action.actionType == Stop {
        ZeroStays(ratios);
      } else {
        var r := ZoneRatio(t, zones[0], points, v, speed);
        AppliedTracks(t, zones[0], points, v, speed, action, k);
        ArbitratedTracks(t, zones[1..], enabled, points, v, speed, Applied(t, zones[0], points, v, speed, action),
                         if r.Some? then Lesser(r.value, k) else k);
      }
    }
  }

  /** The kept factor is one of those offered and none offered is smaller in magnitude. */
  lemma {:induction false} LeastMagnitudeIsLeast(k: real, ratios: seq<real>)
    ensures var m := LeastMagnitude(k, ratios);
      && (m == k || m in ratios)
      && Abs(m) <= Abs(k)
      && forall r :: r in ratios ==> Abs(m) <= Abs(r)
    decreases |ratios|
  {
    if ratios != [] {
      LeastMagnitudeIsLeast(Lesser(ratios[0], k), ratios[1..]);
      var m := LeastMagnitude(k, ratios);
      forall r | r in ratios
        ensures Abs(m) <= Abs(r)
      {
        assert r == ratios[0] || r in ratios[1..];
      }
    }
  }

  // ----- What the chosen factor guarantees ---------------------------------------------

  /** Configurations in which no zone can ask for a reversal. */
  ghost predicate Sane(zone: Zone) {
    && (zone.actionType == Slowdown ==> zone.slowdownRatio >= 0.0)
    && (zone.actionType == Limit ==> zone.linearLimit >= 0.0 && zone.angularLimit >= 0.0)
  }

  ghost predicate AllSane(zones: seq<Zone>) {
    forall i :: 0 <= i < |zones| ==> Sane(zones[i])
  }

  /** The zone is looked at and fires with factor r. */
  ghost predicate Fires(t: Trig, zone: Zone, enabled: bool, points: PointMap, v: Velocity, speed: real, r: real)
  {
    zone.enabled && enabled && ZoneRatio(t, zone, points, v, speed) == Some(r)
  }

  lemma {:induction false} RatiosAreFired(
    t: Trig, zones: seq<Zone>, enabled: bool, points: PointMap, v: Velocity, speed: real, r: real)
    ensures r in Ratios(t, zones, enabled, points, v, speed)
       <==> exists i :: 0 <= i < |zones| && Fires(t, zones[i], enabled, points, v, speed, r)
    decreases |zones|
  {
    if zones != [] {
      var tail := zones[1..];
      RatiosAreFired(t, tail, enabled, points, v, speed, r);
      if r in Ratios(t, zones, enabled, points, v, speed) {
        if Fires(t, zones[0], enabled, points, v, speed, r) {
        } else {
          var i :| 0 <= i < |tail| && Fires(t, tail[i], enabled, points, v, speed, r);
          assert Fires(t, zones[i + 1], enabled, points, v, speed, r);
        }
      }
      if i :| 0 <= i < |zones| && Fires(t, zones[i], enabled, points, v, speed, r) {
        if i > 0 {
          assert Fires(t, tail[i - 1], enabled, points, v, speed, r);
        }
      }
    }
  }

  lemma SaneRatio(t: Trig, zone: Zone, points: PointMap, v: Velocity, speed: real)
    requires Sane(zone)
    ensures var r := ZoneRatio(t, zone, points, v, speed); r.Some? ==> r.value >= 0.0
  {
    var data := Collected(zone.sources, points);
    var time := CollisionTime(t, zone, data, v);
    if zone.actionType == Approach && time >= 0.0 && zone.timeBeforeCollision != 0.0 {
      CollisionTimeInHorizon(t, zone, data, v, time);
      RatioOfZero(zone.timeBeforeCollision);
      if zone.timeBeforeCollision > 0.0 {
        RatioMonotone(0.0, time, zone.timeBeforeCollision);
      }
    }
  }

  /** A factor that is the lesser of 1 and a ratio keeps the ratio's limit. */
  lemma OneLimit(limit: real, d: real, r: real)
    requires limit >= 0.0 && d > 0.0
    ensures Ratio(limit, d) >= 0.0
    ensures r <= Ratio(limit, d) ==> Product(r, d) <= limit
    ensures r == Ratio(limit, d) ==> Product(r, d) == limit
  {
    RatioBack(limit, d);
    RatioMonotone(0.0, limit, d);
    RatioOfZero(d);
    Monotone(r, Ratio(limit, d), d);
  }

  /** Scaling by a Limit zone's factor keeps both of its limits, and the factor is 1 unless a limit needs less. */
  lemma LimitRatioKeepsLimits(zone: Zone, v: Velocity, speed: real)
    requires IsHypot(v, speed) && zone.linearLimit >= 0.0 && zone.angularLimit >= 0.0
    ensures var r := LimitRatio(zone, v, speed);
      && 0.0 <= r <= 1.0
      && Product(r, speed) <= zone.linearLimit && Product(r, Abs(v.tw)) <= zone.angularLimit
      && (r < 1.0 ==> Product(r, speed) == zone.linearLimit || Product(r, Abs(v.tw)) == zone.angularLimit)
  {
    var r := LimitRatio(zone, v, speed);
    if speed != 0.0 {
      OneLimit(zone.linearLimit, speed, r);
    }
    if v.tw != 0.0 {
      OneLimit(zone.angularLimit, Abs(v.tw), r);
    }
    ProductWithZero(r);
  }

  lemma ProductWithZero(r: real)
    ensures Product(r, 0.0) == 0.0
  {
  }

  /** k is at most every factor fired, and 1 or one of them. */
  ghost predicate LeastFired(
    t: Trig, zones: seq<Zone>, enabled: bool, points: PointMap, v: Velocity, speed: real, k: real)
  {
    && (forall i, r :: 0 <= i < |zones| && Fires(t, zones[i], enabled, points, v, speed, r) ==> k <= r)
    && (k == 1.0 || exists i :: 0 <= i < |zones| && Fires(t, zones[i], enabled, points, v, speed, k))
  }

  /**
    One pass over sane zones scales the command by the least of 1 and all fired factors: it
    never speeds the robot up or turns it round.
  */
  lemma ChosenFactor(t: Trig, zones: seq<Zone>, enabled: bool, points: PointMap, v: Velocity, speed: real)
    returns (k: real)
    requires AllSane(zones)
    ensures Arbitrated(t, zones, enabled, points, v, speed, Action(DoNothing, v, "")).reqVel == v.Scaled(k)
    ensures 0.0 <= k <= 1.0
    ensures LeastFired(t, zones, enabled, points, v, speed, k)
  {
    var ratios := Ratios(t, zones, enabled, points, v, speed);
    k := LeastMagnitude(1.0, ratios);
    ArbitratedTracks(t, zones, enabled, points, v, speed, Action(DoNothing, v, ""), 1.0);
    LeastMagnitudeIsLeast(1.0, ratios);
    forall i, r | 0 <= i < |zones| && Fires(t, zones[i], enabled, points, v, speed, r)
      ensures k <= r
    {
      RatiosAreFired(t, zones, enabled, points, v, speed, r);
      SaneRatio(t, zones[i], points, v, speed);
    }
    RatiosAreFired(t, zones, enabled, points, v, speed, k);
    if k != 1.0 {
      var i :| 0 <= i < |zones| && Fires(t, zones[i], enabled, points, v, speed, k);
      SaneRatio(t, zones[i], points, v, speed);
    }
  }

  /** A Stop zone that fires gives zero. */
  lemma StopHolds(
    t: Trig, zones: seq<Zone>, enabled: bool, points: PointMap, v: Velocity, speed: real, i: nat, r: real)
    requires AllSane(zones) && i < |zones| && zones[i].actionType == Stop
    requires Fires(t, zones[i], enabled, points, v, speed, r)
    ensures Arbitrated(t, zones, enabled, points, v, speed, Action(DoNothing, v, "")).reqVel == Velocity(0.0, 0.0, 0.0)
  {
    assert r == 0.0;
    var k := ChosenFactor(t, zones, enabled, points, v, speed);
    assert k <= r;
    ScaledByZero(v);
  }

  /** The chosen velocity obeys every Limit zone that fires, all at once. */
  lemma LimitsHold(
    t: Trig, zones: seq<Zone>, enabled: bool, points: PointMap, v: Velocity, speed: real, i: nat, r: real)
    requires AllSane(zones) && IsHypot(v, speed) && i < |zones| && zones[i].actionType == Limit
    requires Fires(t, zones[i], enabled, points, v, speed, r)
    ensures var u := Arbitrated(t, zones, enabled, points, v, speed, Action(DoNothing, v, "")).reqVel;
      Abs(u.tw) <= zones[i].angularLimit && exists w :: IsHypot(u, w) && w <= zones[i].linearLimit
  {
    var k := ChosenFactor(t, zones, enabled, points, v, speed);
    assert k <= r;
    LimitFactorHolds(zones[i], v, speed, k, r);
  }

  lemma LimitFactorHolds(zone: Zone, v: Velocity, speed: real, k: real, r: real)
    requires zone.linearLimit >= 0.0 && zone.angularLimit >= 0.0 && IsHypot(v, speed)
    requires r == LimitRatio(zone, v, speed) && 0.0 <= k <= r
    ensures Abs(v.Scaled(k).tw) <= zone.angularLimit
    ensures exists w :: IsHypot(v.Scaled(k), w) && w <= zone.linearLimit
  {
    LimitRatioKeepsLimits(zone, v, speed);
    ScaledWithinLimits(v, speed, k, r, zone.linearLimit, zone.angularLimit);
  }

  lemma SmallerFactor(k: real, r: real, d: real, limit: real)
    requires 0.0 <= k <= r && d >= 0.0 && Product(r, d) <= limit
    ensures Product(k, d) <= limit
  {
    if d > 0.0 {
      Monotone(k, r, d);
    } else {
      ProductWithZero(k);
      ProductWithZero(r);
    }
  }

  lemma ScaledWithinLimits(v: Velocity, speed: real, k: real, r: real, linear: real, angular: real)
    requires IsHypot(v, speed) && 0.0 <= k <= r && Product(r, speed) <= linear && Product(r, Abs(v.tw)) <= angular
    ensures Abs(v.Scaled(k).tw) <= angular
    ensures exists w :: IsHypot(v.Scaled(k), w) && w <= linear
  {
    ScaledSpeed(v, speed, k);
    SmallerFactor(k, r, speed, linear);
    SmallerFactor(k, r, Abs(v.tw), angular);
  }

  lemma ScaledSpeed(v: Velocity, speed: real, k: real)
    requires IsHypot(v, speed) && k >= 0.0
    ensures IsHypot(v.Scaled(k), Product(k, speed))
    ensures Abs(v.Scaled(k).tw) == Product(k, Abs(v.tw))
  {
    SquaresScale(v.x, k);
    SquaresScale(v.y, k);
    SquaresScale(speed, k);
    assert Product(k, speed) == speed * k >= 0.0;
    assert (k * k) * (v.x * v.x) + (k * k) * (v.y * v.y) == (k * k) * (v.x * v.x + v.y * v.y);
    AbsProduct(k, v.tw);
    assert Product(k, v.tw) == v.Scaled(k).tw;
  }

  /** Listing the same zones in another order chooses the same velocity. */
  lemma OrderDoesNotMatter(
    t: Trig, zones: seq<Zone>, other: seq<Zone>, enabled: bool, points: PointMap, v: Velocity, speed: real)
    requires AllSane(zones) && multiset(zones) == multiset(other)
    ensures Arbitrated(t, zones, enabled, points, v, speed, Action(DoNothing, v, "")).reqVel
         == Arbitrated(t, other, enabled, points, v, speed, Action(DoNothing, v, "")).reqVel
  {
    forall i | 0 <= i < |other|
      ensures Sane(other[i])
    {
      assert other[i] in multiset(other);
      assert other[i] in zones;
    }
    var k := ChosenFactor(t, zones, enabled, points, v, speed);
    var k' := ChosenFactor(t, other, enabled, points, v, speed);
    LeastOverAnyOrder(t, zones, other, enabled, points, v, speed, k, k');
    LeastOverAnyOrder(t, other, zones, enabled, points, v, speed, k', k);
  }

  lemma LeastOverAnyOrder(
    t: Trig, zones: seq<Zone>, other: seq<Zone>, enabled: bool, points: PointMap, v: Velocity, speed: real,
    k: real, k': real)
    requires multiset(zones) == multiset(other)
    requires k <= 1.0 && LeastFired(t, zones, enabled, points, v, speed, k)
    requires LeastFired(t, other, enabled, points, v, speed, k')
    ensures k <= k'
  {
    if k' != 1.0 {
      var i :| 0 <= i < |other| && Fires(t, other[i], enabled, points, v, speed, k');
      assert other[i] in multiset(other);
      assert other[i] in zones;
      var j :| 0 <= j < |zones| && zones[j] == other[i];
      assert Fires(t, zones[j], enabled, points, v, speed, k');
    }
  }

  /** Whatever the parameters: the factor of least magnitude among 1 and those fired is the one used. */
  lemma AnyConfiguration(t: Trig, zones: seq<Zone>, enabled: bool, points: PointMap, v: Velocity, speed: real)
    returns (k: real)
    ensures Arbitrated(t, zones, enabled, points, v, speed, Action(DoNothing, v, "")).reqVel == v.Scaled(k)
    ensures Abs(k) <= 1.0
    ensures forall i, r :: 0 <= i < |zones| && Fires(t, zones[i], enabled, points, v, speed, r) ==> Abs(k) <= Abs(r)
    ensures k == 1.0 || exists i :: 0 <= i < |zones| && Fires(t, zones[i], enabled, points, v, speed, k)
  {
    var ratios := Ratios(t, zones, enabled, points, v, speed);
    k := LeastMagnitude(1.0, ratios);
    ArbitratedTracks(t, zones, enabled, points, v, speed, Action(DoNothing, v, ""), 1.0);
    LeastMagnitudeIsLeast(1.0, ratios);
    forall i, r | 0 <= i < |zones| && Fires(t, zones[i], enabled, points, v, speed, r)
      ensures Abs(k) <= Abs(r)
    {
      RatiosAreFired(t, zones, enabled, points, v, speed, r);
    }
    RatiosAreFired(t, zones, enabled, points, v, speed, k);
  }
}
