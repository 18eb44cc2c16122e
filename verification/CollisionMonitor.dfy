/** The collision monitor: one decision per command, and the gate that stops repeating zero commands. */
module CollisionMonitor {
  import opened Plane
  import opened CollisionTypes
  import opened Trigonometry
  import opened PolygonZone
  import opened Arbitration
  import opened ZoneDemands

  /** What a data source delivers for one command. */
  datatype SourceReading = SourceReading(name: string, enabled: bool, valid: bool, timeout: real, points: seq<Point>)
  {
    predicate Faulty() {
      enabled && !valid && timeout != 0.0
    }
  }

  const STILL := Velocity(0.0, 0.0, 0.0)
  const INVALID_SOURCE := Action(Stop, STILL, "invalid source")
  const NO_ACTION_YET := Action(DoNothing, Velocity(-1.0, -1.0, -1.0), "")

  predicate AnyFaulty(sources: seq<SourceReading>) {
    exists i :: 0 <= i < |sources| && sources[i].Faulty()
  }

  /** The points read, source by source; sources of one name share an entry. */
  function Gathered(sources: seq<SourceReading>): PointMap
    decreases |sources|
  {
    if sources == [] then map[]
    else
      var before := Gathered(sources[..|sources| - 1]);
      var last := sources[|sources| - 1];
      var known := if last.name in before then before[last.name] else [];
      before[last.name := if last.enabled then known + last.points else known]
  }

  /** The action for one command. */
  ghost function Decision(
    t: Trig, zones: seq<Zone>, enabled: bool, sources: seq<SourceReading>, v: Velocity, speed: real): Action
  {
    if AnyFaulty(sources) then INVALID_SOURCE
    else Arbitrated(t, zones, enabled, Gathered(sources), v, speed, Action(DoNothing, v, ""))
  }

  // ----- The output gate ---------------------------------------------------------------

  datatype Gate = Gate(prev: Velocity, stopStamp: real, out: seq<Velocity>)

  /** A zero command is published when the robot just stopped or has not been stopped for longer than the timeout. */
  function Gated(timeout: real, g: Gate, v: Velocity, now: real): Gate {
    if !v.IsZero() then Gate(v, g.stopStamp, g.out + [v])
    else if !g.prev.IsZero() then Gate(v, now, g.out + [v])
    else if now - g.stopStamp > timeout then g.(prev := v)
    else Gate(v, g.stopStamp, g.out + [v])
  }

  /** A consumer that keeps the last published command holds zero whenever the previous action was zero. */
  ghost predicate Latched(g: Gate) {
    g.prev.IsZero() ==> g.out != [] && g.out[|g.out| - 1] == g.prev
  }

  class Monitor {
    const trig: Trig
    const stopPubTimeout: real
    var zones: seq<Zone>
    var enabled: bool
    var processActive: bool
    var robotActionPrev: Action
    var stopStamp: real
    var cmdVelOut: seq<Velocity>
    var notices: seq<Action>

    ghost function GateState(): Gate
      reads this
    {
      Gate(robotActionPrev.reqVel, stopStamp, cmdVelOut)
    }

    ghost predicate Valid()
      reads this
    {
      Latched(GateState())
    }

    constructor (trig: Trig, stopPubTimeout: real, zones: seq<Zone>, enabled: bool)
      ensures Valid() && this.zones == zones && this.enabled == enabled && !processActive
      ensures cmdVelOut == [] && notices == []
      ensures robotActionPrev == NO_ACTION_YET
    {
      this.trig, this.stopPubTimeout, this.zones, this.enabled := trig, stopPubTimeout, zones, enabled;
      processActive := false;
      robotActionPrev := NO_ACTION_YET;
      stopStamp, cmdVelOut, notices := 0.0, [], [];
    }

    method Activate()
      requires Valid()
      modifies this`processActive
      ensures Valid() && processActive
    {
      processActive := true;
    }

    method Deactivate()
      requires Valid()
      modifies this`processActive, this`robotActionPrev
      ensures Valid() && !processActive && robotActionPrev == NO_ACTION_YET
    {
      processActive := false;
      robotActionPrev := NO_ACTION_YET;
    }

    method PublishVelocity(robotAction: Action, now: real)
      modifies this`stopStamp, this`cmdVelOut
      ensures GateState().(prev := robotAction.reqVel)
        == Gated(stopPubTimeout, old(GateState()), robotAction.reqVel, now)
    {
      if robotAction.reqVel.IsZero() {
        if !robotActionPrev.reqVel.IsZero() {
          stopStamp := now;
        } else if now - stopStamp > stopPubTimeout {
          return;
        }
      }
      cmdVelOut := cmdVelOut + [robotAction.reqVel];
    }

    /** The points of all sources, and the action to start from: a faulty source stops the robot. */
    method CollectSources(cmdVelIn: Velocity, sources: seq<SourceReading>)
      returns (points: PointMap, robotAction: Action)
      ensures robotAction == if AnyFaulty(sources) then INVALID_SOURCE else Action(DoNothing, cmdVelIn, "")
      ensures !AnyFaulty(sources) ==> points == Gathered(sources)
    {
      points := map[];
      robotAction := Action(DoNothing, cmdVelIn, "");
      var i := 0;
      while i < |sources|
        invariant 0 <= i <= |sources|
        invariant points == Gathered(sources[..i])
        invariant robotAction == Action(DoNothing, cmdVelIn, "")
        invariant forall j :: 0 <= j < i ==> !sources[j].Faulty()
      {
        var source := sources[i];
        assert sources[..i + 1][..i] == sources[..i];
        if source.name !in points {
          points := points[source.name := []];
        }
        if source.enabled {
          points := points[source.name := points[source.name] + source.points];
          if !source.valid && source.timeout != 0.0 {
            assert source.Faulty();
            robotAction := INVALID_SOURCE;
            break;
          }
        }
        i := i + 1;
      }
      assert sources[..|sources|] == sources;
    }

    /** Read the sources, arbitrate over the zones, and let the result through the gate. */
    method Process(cmdVelIn: Velocity, speed: real, sources: seq<SourceReading>, now: real)
      requires Valid()
      requires !AnyFaulty(sources) ==> AllUsable(trig, zones, enabled, Gathered(sources), cmdVelIn)
      modifies this`robotActionPrev, this`stopStamp, this`cmdVelOut, this`notices
      ensures Valid()
      ensures !processActive ==>
        robotActionPrev == old(robotActionPrev) && GateState() == old(GateState()) && notices == old(notices)
      ensures processActive ==>
        && robotActionPrev == Decision(trig, zones, enabled, sources, cmdVelIn, speed)
        && GateState() == Gated(stopPubTimeout, old(GateState()), robotActionPrev.reqVel, now)
        && cmdVelOut != [] && cmdVelOut[|cmdVelOut| - 1] == robotActionPrev.reqVel
        && notices == old(notices) + Reported(enabled, old(robotActionPrev.polygonName), [robotActionPrev])
    {
      if !processActive {
        return;
      }
      var points, robotAction := CollectSources(cmdVelIn, sources);
      StoppedStays(trig, zones, enabled, points, cmdVelIn, speed, INVALID_SOURCE);
      robotAction := ProcessZones(trig, zones, enabled, points, cmdVelIn, speed, robotAction);
      if robotAction.polygonName != robotActionPrev.polygonName && enabled {
        notices := notices + [robotAction];
      }
      LatchKept(stopPubTimeout, GateState(), robotAction.reqVel, now);
      PublishVelocity(robotAction, now);
      robotActionPrev := robotAction;
    }
  }

  /** A latching consumer of the gated stream holds the ungated command after every step. */
  lemma LatchKept(timeout: real, g: Gate, v: Velocity, now: real)
    requires Latched(g)
    ensures var g' := Gated(timeout, g, v, now);
      Latched(g') && g'.prev == v && g'.out != [] && g'.out[|g'.out| - 1] == v
  {
  }

  // ----- Notices -----------------------------------------------------------------------

  /** What is reported over a run of actions: those of another zone than the action before. */
  function Reported(enabled: bool, zone: string, actions: seq<Action>): seq<Action>
    decreases |actions|
  {
    if actions == [] || !enabled then []
    else
      (if actions[0].polygonName != zone then [actions[0]] else [])
      + Reported(enabled, actions[0].polygonName, actions[1..])
  }

  function LastZone(zone: string, actions: seq<Action>): string {
    if actions == [] then zone else actions[|actions| - 1].polygonName
  }

  /** The last notice always names the zone acting now, and no two notices in a row name the same one. */
  lemma {:induction false} NoticesTrackTheZone(zone: string, actions: seq<Action>)
    ensures var notices := Reported(true, zone, actions);
      && LastZone(zone, notices) == LastZone(zone, actions)
      && (notices != [] ==> notices[0].polygonName != zone)
      && forall k :: 0 < k < |notices| ==> notices[k - 1].polygonName != notices[k].polygonName
    decreases |actions|
  {
    if actions != [] {
      NoticesTrackTheZone(actions[0].polygonName, actions[1..]);
    }
  }

  /** A run reported in two parts is reported as a whole. */
  lemma {:induction false} NoticesAddUp(enabled: bool, zone: string, front: seq<Action>, back: seq<Action>)
    ensures Reported(enabled, zone, front + back)
         == Reported(enabled, zone, front) + Reported(enabled, LastZone(zone, front), back)
    decreases |front|
  {
    if front == [] {
      assert front + back == back;
    } else {
      assert (front + back)[1..] == front[1..] + back;
      NoticesAddUp(enabled, front[0].polygonName, front[1..], back);
    }
  }

  // ----- Streams -----------------------------------------------------------------------

  datatype Input = Command(v: Velocity, now: real) | Deactivation

  predicate ZeroCommand(i: Input) {
    i.Command? && i.v.IsZero()
  }

  function GateRun(timeout: real, inputs: seq<Input>): Gate
    decreases |inputs|
  {
    if inputs == [] then Gate(NO_ACTION_YET.reqVel, 0.0, [])
    else
      var g := GateRun(timeout, inputs[..|inputs| - 1]);
      match inputs[|inputs| - 1]
      case Command(v, now) => Gated(timeout, g, v, now)
      case Deactivation => g.(prev := NO_ACTION_YET.reqVel)
  }

  /** After any run that ends with a command, the last published velocity is that command's. */
  lemma {:induction false} GateIsInvisible(timeout: real, inputs: seq<Input>)
    ensures Latched(GateRun(timeout, inputs))
    ensures inputs != [] && inputs[|inputs| - 1].Command? ==>
      var out := GateRun(timeout, inputs).out;
      out != [] && out[|out| - 1] == inputs[|inputs| - 1].v
    decreases |inputs|
  {
    if inputs != [] {
      GateIsInvisible(timeout, inputs[..|inputs| - 1]);
      if inputs[|inputs| - 1].Command? {
        LatchKept(timeout, GateRun(timeout, inputs[..|inputs| - 1]), inputs[|inputs| - 1].v, inputs[|inputs| - 1].now);
      }
    }
  }

  /** Where the unbroken stretch of zero commands ending at j began. */
  function StreakStart(inputs: seq<Input>, j: nat): nat
    requires j < |inputs|
  {
    if j == 0 || !ZeroCommand(inputs[j - 1]) then j else StreakStart(inputs, j - 1)
  }

  lemma {:induction false} StreakStartIsZero(inputs: seq<Input>, j: nat)
    requires j < |inputs| && ZeroCommand(inputs[j])
    ensures var i := StreakStart(inputs, j);
      i <= j && (forall k :: i <= k <= j ==> ZeroCommand(inputs[k])) && (i > 0 ==> !ZeroCommand(inputs[i - 1]))
  {
    if j > 0 && ZeroCommand(inputs[j - 1]) {
      StreakStartIsZero(inputs, j - 1);
    }
  }

  lemma {:induction false} StampIsStreakStart(timeout: real, inputs: seq<Input>, j: nat)
    requires j < |inputs|
    ensures var g := GateRun(timeout, inputs[..j + 1]);
      && (g.prev.IsZero() <==> ZeroCommand(inputs[j]))
      && (ZeroCommand(inputs[j]) ==>
            StreakStart(inputs, j) <= j && inputs[StreakStart(inputs, j)].Command?
            && g.stopStamp == inputs[StreakStart(inputs, j)].now)
    decreases j
  {
    var prefix := inputs[..j + 1];
    assert prefix[..j] == inputs[..j];
    if j > 0 {
      StampIsStreakStart(timeout, inputs, j - 1);
    }
    if ZeroCommand(inputs[j]) {
      StreakStartIsZero(inputs, j);
    }
  }

  /** Exactly which commands are published: all but the zeros that come later than the timeout after the stop. */
  lemma PublishedExactly(timeout: real, inputs: seq<Input>, j: nat)
    requires j < |inputs| && inputs[j].Command?
    ensures ZeroCommand(inputs[j]) ==> StreakStart(inputs, j) <= j && inputs[StreakStart(inputs, j)].Command?
    ensures var silent := ZeroCommand(inputs[j]) && StreakStart(inputs, j) < j
                          && inputs[j].now - inputs[StreakStart(inputs, j)].now > timeout;
      GateRun(timeout, inputs[..j + 1]).out
      == GateRun(timeout, inputs[..j]).out + (if silent then [] else [inputs[j].v])
  {
    var prefix := inputs[..j + 1];
    assert prefix[..j] == inputs[..j];
    if j > 0 {
      StampIsStreakStart(timeout, inputs, j - 1);
    }
    if ZeroCommand(inputs[j]) {
      StreakStartIsZero(inputs, j);
    }
  }

  // ----- Sources -----------------------------------------------------------------------

  /** What the sources of that name deliver: those switched on, in order. */
  function PointsOf(name: string, sources: seq<SourceReading>): seq<Point>
    decreases |sources|
  {
    if sources == [] then []
    else
      var last := sources[|sources| - 1];
      PointsOf(name, sources[..|sources| - 1]) + if last.name == name && last.enabled then last.points else []
  }

  function PointsOfAll(names: seq<string>, sources: seq<SourceReading>): seq<Point> {
    if names == [] then [] else PointsOf(names[0], sources) + PointsOfAll(names[1..], sources)
  }

  lemma {:induction false} GatheredPoints(name: string, sources: seq<SourceReading>)
    ensures (if name in Gathered(sources) then Gathered(sources)[name] else []) == PointsOf(name, sources)
    decreases |sources|
  {
    if sources != [] {
      GatheredPoints(name, sources[..|sources| - 1]);
    }
  }

  /** A zone sees the points of its sources that are switched on, and no others. */
  lemma {:induction false} ZoneSees(names: seq<string>, sources: seq<SourceReading>)
    ensures Collected(names, Gathered(sources)) == PointsOfAll(names, sources)
    decreases |names|
  {
    if names != [] {
      GatheredPoints(names[0], sources);
      ZoneSees(names[1..], sources);
    }
  }

  /** A source that is switched on, delivers nothing valid and has a timeout stops the robot, whatever the zones. */
  lemma FaultySourceStops(t: Trig, zones: seq<Zone>, enabled: bool, sources: seq<SourceReading>, v: Velocity,
      speed: real, i: nat)
    requires i < |sources| && sources[i].enabled && !sources[i].valid && sources[i].timeout != 0.0
    ensures Decision(t, zones, enabled, sources, v, speed) == Action(Stop, Velocity(0.0, 0.0, 0.0), "invalid source")
  {
    assert sources[i].Faulty();
  }

  /**
    One command with sane zones: the velocity is the command scaled by k, zero when a source that is switched
    on fails to deliver within its timeout, and otherwise the least of 1 and what the zones demand.
  */
  lemma DecisionScalesCommand(t: Trig, zones: seq<Zone>, enabled: bool, sources: seq<SourceReading>, v: Velocity,
      speed: real)
    returns (k: real)
    requires AllSane(zones) && IsHypot(v, speed)
    ensures Decision(t, zones, enabled, sources, v, speed).reqVel == v.Scaled(k)
    ensures 0.0 <= k <= 1.0
    ensures
      if exists i :: 0 <= i < |sources| && sources[i].enabled && !sources[i].valid && sources[i].timeout != 0.0
      then k == 0.0
      else LeastDemand(t, zones, enabled, Gathered(sources), v, speed, k)
  {
    k := ChosenIsLeastDemand(t, zones, enabled, Gathered(sources), v, speed);
    if AnyFaulty(sources) {
      ScaledByZero(v);
      k := 0.0;
      var i :| 0 <= i < |sources| && sources[i].Faulty();
      assert sources[i].enabled && !sources[i].valid && sources[i].timeout != 0.0;
    } else if i :| 0 <= i < |sources| && sources[i].enabled && !sources[i].valid && sources[i].timeout != 0.0 {
      assert sources[i].Faulty();
    }
  }
}
