/** The velocity the zones choose, from what lies in them and their parameters alone. */
module ZoneDemands {
  import opened CollisionTypes
  import opened Wrappers
  import opened RealArithmetic
  import opened Trigonometry
  import opened PolygonZone
  import opened Arbitration

  /** A zone that has a shape and holds at least its number of points. */
  predicate Holds(zone: Zone, points: PointMap) {
    zone.ring != [] && CountInside(zone.ring, Collected(zone.sources, points)) >= zone.minPoints
  }

  /** The zone wants the command scaled by at most r. */
  ghost predicate Demands(t: Trig, zone: Zone, points: PointMap, v: Velocity, speed: real, r: real) {
    match zone.actionType
    case DoNothing => false
    case Stop => Holds(zone, points) && r == 0.0
    case Slowdown => Holds(zone, points) && r == zone.slowdownRatio
    case Limit =>
      && Holds(zone, points)
      && ((speed != 0.0 && r * speed == zone.linearLimit) || (v.tw != 0.0 && r * Abs(v.tw) == zone.angularLimit))
    case Approach =>
      && zone.ring != [] && zone.timeBeforeCollision != 0.0
      && exists time :: IsCollisionTime(t, zone, Collected(zone.sources, points), v, time)
           && time >= 0.0 && r * zone.timeBeforeCollision == time
  }

  /** A zone that is switched on has the demand. */
  ghost predicate Demanded(
    t: Trig, zones: seq<Zone>, enabled: bool, points: PointMap, v: Velocity, speed: real, r: real)
  {
    enabled && exists i :: 0 <= i < |zones| && zones[i].enabled && Demands(t, zones[i], points, v, speed, r)
  }

  /** k is the least of 1 and everything demanded. */
  ghost predicate LeastDemand(
    t: Trig, zones: seq<Zone>, enabled: bool, points: PointMap, v: Velocity, speed: real, k: real)
  {
    && k <= 1.0 && (k == 1.0 || Demanded(t, zones, enabled, points, v, speed, k))
    && forall r :: Demanded(t, zones, enabled, points, v, speed, r) ==> k <= r
  }

  // ----- One zone ----------------------------------------------------------------------

  lemma RatioMeets(r: real, a: real, d: real)
    requires d != 0.0
    ensures r * d == a <==> r == Ratio(a, d)
  {
    RatioBack(a, d);
    RatioBack(r, d);
    assert Product(r, d) == r * d;
  }

  lemma LimitIsLeast(zone: Zone, v: Velocity, speed: real)
    requires IsHypot(v, speed) && zone.linearLimit >= 0.0 && zone.angularLimit >= 0.0
    ensures var k := LimitRatio(zone, v, speed);
      && (speed != 0.0 ==> k <= Ratio(zone.linearLimit, speed))
      && (v.tw != 0.0 ==> k <= Ratio(zone.angularLimit, Abs(v.tw)))
      && (k == 1.0 || (speed != 0.0 && k == Ratio(zone.linearLimit, speed))
          || (v.tw != 0.0 && k == Ratio(zone.angularLimit, Abs(v.tw))))
  {
    if speed != 0.0 {
      OneLimit(zone.linearLimit, speed, 0.0);
    }
    if v.tw != 0.0 {
      OneLimit(zone.angularLimit, Abs(v.tw), 0.0);
    }
  }

  /** A fired factor is the least of the zone's demands, or 1. */
  lemma FiredIsDemanded(t: Trig, zone: Zone, points: PointMap, v: Velocity, speed: real, r: real)
    requires Sane(zone) && IsHypot(v, speed) && ZoneRatio(t, zone, points, v, speed) == Some(r)
    ensures r == 1.0 || Demands(t, zone, points, v, speed, r)
  {
    var data := Collected(zone.sources, points);
    match zone.actionType {
      case Limit =>
        LimitIsLeast(zone, v, speed);
        if speed != 0.0 {
          RatioMeets(r, zone.linearLimit, speed);
        }
        if v.tw != 0.0 {
          RatioMeets(r, zone.angularLimit, Abs(v.tw));
        }
      case Approach =>
        var time := CollisionTime(t, zone, data, v);
        RatioMeets(r, time, zone.timeBeforeCollision);
        assert IsCollisionTime(t, zone, data, v, time);
      case _ =>
    }
  }

  lemma LimitDemandIsFired(zone: Zone, v: Velocity, speed: real, r: real)
    requires IsHypot(v, speed) && zone.linearLimit >= 0.0 && zone.angularLimit >= 0.0
    requires (speed != 0.0 && r * speed == zone.linearLimit) || (v.tw != 0.0 && r * Abs(v.tw) == zone.angularLimit)
    ensures LimitRatio(zone, v, speed) <= r
  {
    LimitIsLeast(zone, v, speed);
    if speed != 0.0 {
      RatioMeets(r, zone.linearLimit, speed);
    }
    if v.tw != 0.0 {
      RatioMeets(r, zone.angularLimit, Abs(v.tw));
    }
  }

  lemma ApproachDemandIsFired(t: Trig, zone: Zone, points: PointMap, v: Velocity, speed: real, r: real, time: real)
    requires zone.actionType == Approach && zone.ring != [] && zone.timeBeforeCollision != 0.0
    requires IsCollisionTime(t, zone, Collected(zone.sources, points), v, time)
    requires time >= 0.0 && r * zone.timeBeforeCollision == time
    ensures ZoneRatio(t, zone, points, v, speed) == Some(r)
  {
    var data := Collected(zone.sources, points);
    CollisionTimeIsUnique(t, zone, data, v, time, CollisionTime(t, zone, data, v));
    RatioMeets(r, time, zone.timeBeforeCollision);
  }

  lemma DemandIsFired(t: Trig, zone: Zone, points: PointMap, v: Velocity, speed: real, r: real)
    requires Sane(zone) && IsHypot(v, speed) && Demands(t, zone, points, v, speed, r)
    ensures var fired := ZoneRatio(t, zone, points, v, speed); fired.Some? && fired.value <= r
  {
    match zone.actionType {
      case Limit => LimitDemandIsFired(zone, v, speed, r);
      case Approach =>
        var time :| IsCollisionTime(t, zone, Collected(zone.sources, points), v, time)
          && time >= 0.0 && r * zone.timeBeforeCollision == time;
        ApproachDemandIsFired(t, zone, points, v, speed, r, time);
      case _ =>
    }
  }

  // ----- All zones ---------------------------------------------------------------------

  lemma LeastFiredIsLeastDemand(
    t: Trig, zones: seq<Zone>, enabled: bool, points: PointMap, v: Velocity, speed: real, k: real)
    requires AllSane(zones) && IsHypot(v, speed) && k <= 1.0
    requires LeastFired(t, zones, enabled, points, v, speed, k)
    ensures LeastDemand(t, zones, enabled, points, v, speed, k)
  {
    if k != 1.0 {
      var i :| 0 <= i < |zones| && Fires(t, zones[i], enabled, points, v, speed, k);
      FiredIsDemanded(t, zones[i], points, v, speed, k);
      assert Demanded(t, zones, enabled, points, v, speed, k);
    }
    forall r | Demanded(t, zones, enabled, points, v, speed, r)
      ensures k <= r
    {
      var i :| 0 <= i < |zones| && zones[i].enabled && Demands(t, zones[i], points, v, speed, r);
      DemandIsFired(t, zones[i], points, v, speed, r);
      assert Fires(t, zones[i], enabled, points, v, speed, ZoneRatio(t, zones[i], points, v, speed).value);
    }
  }

  /**
    With sane parameters the velocity chosen is the command scaled by the least of 1 and what the zones that
    are switched on demand: 0 for a Stop zone that holds enough points, its ratio for a Slowdown zone, either
    limit over the commanded speed for a Limit zone, and the share of the horizon left for an Approach zone.
  */
  lemma ChosenIsLeastDemand(t: Trig, zones: seq<Zone>, enabled: bool, points: PointMap, v: Velocity, speed: real)
    returns (k: real)
    requires AllSane(zones) && IsHypot(v, speed)
    ensures Arbitrated(t, zones, enabled, points, v, speed, Action(DoNothing, v, "")).reqVel == v.Scaled(k)
    ensures 0.0 <= k && LeastDemand(t, zones, enabled, points, v, speed, k)
  {
    k := ChosenFactor(t, zones, enabled, points, v, speed);
    LeastFiredIsLeastDemand(t, zones, enabled, points, v, speed, k);
  }

  // ----- The action --------------------------------------------------------------------

  /** The action is that of a zone switched on: of its kind, under its name, and with what it demands. */
  ghost predicate OfAZone(
    t: Trig, zones: seq<Zone>, enabled: bool, points: PointMap, v: Velocity, speed: real, action: Action)
  {
    && enabled
    && exists i, r ::
         && 0 <= i < |zones| && zones[i].enabled && Demands(t, zones[i], points, v, speed, r)
         && action == Action(zones[i].actionType, v.Scaled(r), zones[i].name)
  }

  lemma AppliedIsOfZone(t: Trig, zone: Zone, points: PointMap, v: Velocity, speed: real, action: Action, k: real)
    returns (r: real)
    requires Sane(zone) && IsHypot(v, speed) && Tracks(action, v, k) && 0.0 <= k <= 1.0
    requires Applied(t, zone, points, v, speed, action) != action
    ensures Demands(t, zone, points, v, speed, r) && 0.0 <= r <= 1.0
    ensures Applied(t, zone, points, v, speed, action) == Action(zone.actionType, v.Scaled(r), zone.name)
    ensures zone.actionType == Stop ==> r == 0.0
  {
    r := ZoneRatio(t, zone, points, v, speed).value;
    SaneRatio(t, zone, points, v, speed);
    ScaledByZero(v);
    if zone.actionType != Stop {
      if v.IsZero() {
        ZeroScaled(v, r, k);
        assert false;
      }
      SlowerIsSmallerRatio(v, r, k);
    }
    FiredIsDemanded(t, zone, points, v, speed, r);
  }

  lemma OfARest(t: Trig, zones: seq<Zone>, enabled: bool, points: PointMap, v: Velocity, speed: real, action: Action)
    requires zones != [] && OfAZone(t, zones[1..], enabled, points, v, speed, action)
    ensures OfAZone(t, zones, enabled, points, v, speed, action)
  {
    var tail := zones[1..];
    var i, r :| 0 <= i < |tail| && tail[i].enabled && Demands(t, tail[i], points, v, speed, r)
      && action == Action(tail[i].actionType, v.Scaled(r), tail[i].name);
    assert zones[i + 1] == tail[i];
  }

  lemma {:induction false} ActionIsOfAZone(
    t: Trig, zones: seq<Zone>, enabled: bool, points: PointMap, v: Velocity, speed: real, action: Action, k: real)
    requires AllSane(zones) && IsHypot(v, speed) && Tracks(action, v, k) && 0.0 <= k <= 1.0
    ensures var chosen := Arbitrated(t, zones, enabled, points, v, speed, action);
      chosen == action || OfAZone(t, zones, enabled, points, v, speed, chosen)
    decreases |zones|
  {
    if zones != [] {
      var chosen := Arbitrated(t, zones, enabled, points, v, speed, action);
      if !zones[0].enabled || !enabled {
        ActionIsOfAZone(t, zones[1..], enabled, points, v, speed, action, k);
      } else if action.actionType != Stop {
        var next := Applied(t, zones[0], points, v, speed, action);
        if next == action {
          ActionIsOfAZone(t, zones[1..], enabled, points, v, speed, action, k);
        } else {
          var r := AppliedIsOfZone(t, zones[0], points, v, speed, action, k);
          ActionIsOfAZone(t, zones[1..], enabled, points, v, speed, next, r);
        }
      }
      if OfAZone(t, zones[1..], enabled, points, v, speed, chosen) {
        OfARest(t, zones, enabled, points, v, speed, chosen);
      }
    }
  }

  /** What is reported is the command itself under no name, or a zone's action whose demand was chosen. */
  lemma ChosenActionIsAZones(t: Trig, zones: seq<Zone>, enabled: bool, points: PointMap, v: Velocity, speed: real)
    requires AllSane(zones) && IsHypot(v, speed)
    ensures var chosen := Arbitrated(t, zones, enabled, points, v, speed, Action(DoNothing, v, ""));
      chosen == Action(DoNothing, v, "") || OfAZone(t, zones, enabled, points, v, speed, chosen)
  {
    ActionIsOfAZone(t, zones, enabled, points, v, speed, Action(DoNothing, v, ""), 1.0);
  }
}
