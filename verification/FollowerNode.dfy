/** The follower node itself: fields updated in place, each method meeting the protocol function of its name. */
module FollowerNode {
  import opened Wrappers
  import Protocol = FollowerProtocol
  import opened FollowerProtocol
  import opened FollowerInvariant

  /** The state once the goal that was out has been dealt with. */
  function Cleared(s: State, arrivedAt: map<nat, real>, skipped: set<nat>): State {
    s.(transitionInProgress := false, goalHandle := None, goalResultFuture := None,
       arrivedAt := arrivedAt, skipped := skipped)
  }

  function Cancelling(s: State, goal: nat, waitSeconds: real, isLast: bool): State {
    s.(transitionInProgress := true,
       goalSerial := s.goalSerial + 1,
       cancels := s.cancels + [goal],
       pending := s.pending + multiset{Callback.CancelFinished(goal, waitSeconds, isLast)})
  }

  function LeftFor(cfg: Config, s: State, now: real, isLast: bool): State {
    if isLast then Protocol.CompleteOrLoop(cfg, s, now) else Protocol.Advance(cfg, s, now)
  }

  function Skipped(cfg: Config, s: State, now: real): State {
    LeftFor(cfg, Cleared(s, s.arrivedAt, s.skipped + {if s.sends != [] then |s.sends| - 1 else 0}),
            now, cfg.IsLast(s.index))
  }

  lemma ArrivalGoesOn(cfg: Config, s: State, now: real, waitSeconds: real, isLast: bool)
    requires s.index < |cfg.waypoints|
    ensures var r := Cleared(s, s.arrivedAt[if s.sends != [] then |s.sends| - 1 else 0 := now], s.skipped);
      Protocol.FinishArrival(cfg, s, now, waitSeconds, isLast)
        == if waitSeconds > 0.0 then Protocol.BeginDwell(r, now, waitSeconds, isLast) else LeftFor(cfg, r, now, isLast)
  {
  }

  class WaypointFollower {
    const cfg: Config
    ghost const start: nat

    var index: nat
    var goalSerial: nat
    var goalHandle: Option<nat>
    var goalResultFuture: Option<nat>
    var transitionInProgress: bool
    var holdingStop: bool
    var waitingUntil: Option<real>
    var waitingFinishesRoute: bool
    var finished: bool

    // Callbacks attached to futures, and what has been sent and published.
    var pending: multiset<Callback>
    var sends: seq<Send>
    var cancels: seq<nat>
    var zeroTwists: nat
    var stops: seq<bool>

    ghost var arrivedAt: map<nat, real>
    ghost var skipped: set<nat>
    ghost var clock: real

    ghost function Abstract(): State
      reads this
    {
      State(index, goalSerial, goalHandle, goalResultFuture, transitionInProgress, holdingStop,
            waitingUntil, waitingFinishesRoute, finished, false, pending, sends, cancels,
            zeroTwists, stops, arrivedAt, skipped)
    }

    /** Between callbacks, once started. */
    ghost predicate Valid()
      reads this
    {
      Inv(cfg, start, Abstract(), clock)
    }

    constructor (cfg: Config, startIndex: nat)
      requires cfg.Valid() && 1 <= startIndex <= |cfg.waypoints|
      ensures this.cfg == cfg && start == startIndex - 1
      ensures Abstract() == Initial(startIndex - 1)
    {
      this.cfg, this.start := cfg, startIndex - 1;
      index := startIndex - 1;
      goalHandle, goalResultFuture, goalSerial := None, None, 0;
      transitionInProgress, holdingStop := false, false;
      waitingUntil, waitingFinishesRoute, finished := None, false, false;
      pending, sends, cancels, zeroTwists, stops := multiset{}, [], [], 0, [false];
      arrivedAt, skipped := map[], {};
    }

    /** Called when the wait for the action server is over; running is false when the program is being stopped. */
    method Start(running: bool, now: real)
      requires cfg.Valid() && start < |cfg.waypoints| && Abstract() == Initial(start)
      modifies this
      ensures !running ==> Abstract() == old(Abstract()) && clock == old(clock)
      ensures running ==> Abstract() == Protocol.SendCurrentGoal(cfg, old(Abstract()), now)
      ensures running ==> Valid() && clock == now
    {
      if !running {
        return;
      }
      StartEstablishesInv(cfg, start, now);
      clock := now;
      SendCurrentGoal(now);
    }

    method PublishStop(value: bool)
      modifies this
      ensures Abstract() == Protocol.PublishStop(old(Abstract()), value) && clock == old(clock)
    {
      stops := stops + [value];
    }

    method PublishSafetyZero()
      modifies this
      ensures Abstract() == Protocol.PublishSafetyZero(old(Abstract())) && clock == old(clock)
    {
      zeroTwists := zeroTwists + 1;
    }

    method BeginHoldingStop()
      modifies this
      ensures Abstract() == Protocol.BeginHoldingStop(old(Abstract())) && clock == old(clock)
    {
      holdingStop := true;
      PublishStop(false);
      PublishSafetyZero();
    }

    method SendCurrentGoal(now: real)
      requires index < |cfg.waypoints|
      modifies this
      ensures Abstract() == Protocol.SendCurrentGoal(cfg, old(Abstract()), now) && clock == old(clock)
    {
      if finished || waitingUntil.Some? {
        return;
      }
      goalSerial := goalSerial + 1;
      var serial := goalSerial;
      sends := sends + [Send(index, serial, now)];
      pending := pending + multiset{Callback.GoalResponse(serial)};
    }

    method TurnTo(next: nat)
      modifies this`index, this`goalHandle
      ensures index == next && Abstract() == old(Abstract()).(index := next, goalHandle := None)
    {
      index := next;
      goalHandle := None;
    }

    method Advance(now: real)
      requires index + 1 < |cfg.waypoints|
      modifies this
      ensures Abstract() == Protocol.Advance(cfg, old(Abstract()), now) && clock == old(clock)
    {
      TurnTo(index + 1);
      SendCurrentGoal(now);
    }

    method CompleteOrLoop(now: real)
      requires cfg.Valid()
      modifies this
      ensures Abstract() == Protocol.CompleteOrLoop(cfg, old(Abstract()), now) && clock == old(clock)
    {
      if cfg.loop {
        TurnTo(0);
        SendCurrentGoal(now);
        return;
      }
      finished := true;
      PublishSafetyZero();
      PublishStop(false);
    }

    method BeginDwell(now: real, waitSeconds: real, isLast: bool)
      modifies this
      ensures Abstract() == Protocol.BeginDwell(old(Abstract()), now, waitSeconds, isLast) && clock == old(clock)
    {
      BeginHoldingStop();
      waitingUntil := Some(now + waitSeconds);
      waitingFinishesRoute := isLast;
    }

    /** The goal that was out has been dealt with. */
    method ClearGoal(ghost arrivals: map<nat, real>, ghost skips: set<nat>)
      modifies this`transitionInProgress, this`goalHandle, this`goalResultFuture, this`arrivedAt, this`skipped
      ensures Abstract() == Cleared(old(Abstract()), arrivals, skips)
    {
      transitionInProgress := false;
      goalHandle := None;
      goalResultFuture := None;
      arrivedAt, skipped := arrivals, skips;
    }

    /** On to the next waypoint, or to the end of the route. */
    method LeaveWaypoint(now: real, isLast: bool)
      requires cfg.Valid() && (isLast || index + 1 < |cfg.waypoints|)
      modifies this
      ensures Abstract() == LeftFor(cfg, old(Abstract()), now, isLast) && clock == old(clock)
    {
      if isLast {
        CompleteOrLoop(now);
      } else {
        Advance(now);
      }
    }

    method FinishArrival(now: real, waitSeconds: real, isLast: bool)
      requires cfg.Valid() && index < |cfg.waypoints| && (isLast || index + 1 < |cfg.waypoints|)
      modifies this
      ensures Abstract() == Protocol.FinishArrival(cfg, old(Abstract()), now, waitSeconds, isLast)
      ensures clock == old(clock)
    {
      ArrivalGoesOn(cfg, Abstract(), now, waitSeconds, isLast);
      ClearGoal(arrivedAt[if sends != [] then |sends| - 1 else 0 := now], skipped);
      if waitSeconds > 0.0 {
        BeginDwell(now, waitSeconds, isLast);
      } else {
        LeaveWaypoint(now, isLast);
      }
    }

    method ArriveAtWaypoint(now: real, exactArrival: bool)
      requires cfg.Valid() && index < |cfg.waypoints|
      modifies this
      ensures Abstract() == Protocol.ArriveAtWaypoint(cfg, old(Abstract()), now, exactArrival) && clock == old(clock)
    {
      var waypoint := cfg.waypoints[index];
      var isLast := index == |cfg.waypoints| - 1;
      var waitSeconds := waypoint.waitTime;
      if waypoint.stop && waitSeconds <= 0.0 {
        waitSeconds := cfg.stopDuration;
      }
      if !exactArrival && goalHandle.Some? {
        BeginTransition(goalHandle.value, waitSeconds, isLast);
      } else {
        FinishArrival(now, waitSeconds, isLast);
      }
    }

    /** Cancel the goal that is out, and leave what its result says to no one. */
    method BeginTransition(goal: nat, waitSeconds: real, isLast: bool)
      modifies this`transitionInProgress, this`goalSerial, this`cancels, this`pending
      ensures Abstract() == Cancelling(old(Abstract()), goal, waitSeconds, isLast)
    {
      transitionInProgress := true;
      goalSerial := goalSerial + 1;
      cancels := cancels + [goal];
      pending := pending + multiset{Callback.CancelFinished(goal, waitSeconds, isLast)};
    }

    method FinishCancelTransition(now: real, waitSeconds: real, isLast: bool)
      requires cfg.Valid() && index < |cfg.waypoints| && (isLast || index + 1 < |cfg.waypoints|)
      modifies this
      ensures Abstract() == Protocol.FinishCancelTransition(cfg, old(Abstract()), now, waitSeconds, isLast)
      ensures clock == old(clock)
    {
      PublishSafetyZero();
      FinishArrival(now, waitSeconds, isLast);
    }

    method StopRoute()
      modifies this
      ensures Abstract() == Protocol.PublishStop(Protocol.PublishSafetyZero(
                old(Abstract()).(finished := true, holdingStop := false)), false)
      ensures clock == old(clock)
    {
      finished := true;
      holdingStop := false;
      PublishSafetyZero();
      PublishStop(false);
    }

    method SkipWaypoint(now: real)
      requires cfg.Valid() && index < |cfg.waypoints|
      modifies this
      ensures Abstract() == Skipped(cfg, old(Abstract()), now)
      ensures clock == old(clock)
    {
      ClearGoal(arrivedAt, skipped + {if sends != [] then |sends| - 1 else 0});
      LeaveWaypoint(now, index == |cfg.waypoints| - 1);
    }

    method HandleFailure(now: real, serial: nat)
      requires cfg.Valid() && index < |cfg.waypoints|
      modifies this
      ensures Abstract() == Protocol.HandleFailure(cfg, old(Abstract()), now, serial) && clock == old(clock)
    {
      if serial != goalSerial || finished {
        return;
      }
      if cfg.stopOnFailure {
        StopRoute();
      } else {
        SkipWaypoint(now);
      }
    }

    method GoalResponse(serial: nat, outcome: ResponseOutcome, now: real)
      requires cfg.Valid() && index < |cfg.waypoints|
      modifies this
      ensures Abstract() == OnGoalResponse(cfg, old(Abstract()), now, serial, outcome) && clock == old(clock)
    {
      if serial != goalSerial || finished {
        return;
      }
      if outcome != Accepted {
        HandleFailure(now, serial);
        return;
      }
      goalHandle := Some(serial);
      goalResultFuture := Some(serial);
      pending := pending + multiset{Callback.GoalResult(serial)};
    }

    method GoalResult(serial: nat, outcome: ResultOutcome, now: real)
      requires cfg.Valid() && index < |cfg.waypoints|
      modifies this
      ensures Abstract() == OnGoalResult(cfg, old(Abstract()), now, serial, outcome) && clock == old(clock)
    {
      if serial != goalSerial || finished || waitingUntil.Some? {
        return;
      }
      if outcome == Succeeded {
        ArriveAtWaypoint(now, true);
      } else {
        HandleFailure(now, serial);
      }
    }

    method CancelFinished(waitSeconds: real, isLast: bool, outcome: CancelOutcome, now: real)
      requires cfg.Valid() && index < |cfg.waypoints| && (isLast || index + 1 < |cfg.waypoints|)
      modifies this
      ensures Abstract() == OnCancelFinished(cfg, old(Abstract()), now, waitSeconds, isLast, outcome)
      ensures clock == old(clock)
    {
      if outcome == GoalsCanceling && goalResultFuture.Some? {
        pending := pending + multiset{Callback.CancelResultFinished(goalResultFuture.value, waitSeconds, isLast)};
        return;
      }
      FinishCancelTransition(now, waitSeconds, isLast);
    }

    method CancelResultFinished(waitSeconds: real, isLast: bool, now: real)
      requires cfg.Valid() && index < |cfg.waypoints| && (isLast || index + 1 < |cfg.waypoints|)
      modifies this
      ensures Abstract() == OnCancelResultFinished(cfg, old(Abstract()), now, waitSeconds, isLast)
      ensures clock == old(clock)
    {
      FinishCancelTransition(now, waitSeconds, isLast);
    }

    /** The dwelling branch of a tick. */
    method ResumeWhenDue(now: real)
      requires cfg.Valid() && waitingUntil.Some?
      requires waitingFinishesRoute || index + 1 < |cfg.waypoints|
      modifies this
      ensures Abstract() == Resume(cfg, old(Abstract()), now) && clock == old(clock)
    {
      if now >= waitingUntil.value {
        ghost var s := Abstract();
        holdingStop := false;
        waitingUntil := None;
        assert Abstract() == s.(holdingStop := false, waitingUntil := None);
        if waitingFinishesRoute {
          CompleteOrLoop(now);
        } else {
          Advance(now);
        }
      }
    }

    method NearCurrentWaypoint(position: (real, real)) returns (near: bool)
      requires index < |cfg.waypoints|
      ensures near == WithinThreshold(cfg, index, position)
    {
      var waypoint := cfg.waypoints[index];
      var dx := waypoint.x - position.0;
      var dy := waypoint.y - position.1;
      var needsPause := waypoint.stop || waypoint.waitTime > 0.0;
      var threshold := if needsPause then cfg.preciseThreshold
                       else if waypoint.threshold > 0.0 then waypoint.threshold else cfg.defaultThreshold;
      near := dx * dx + dy * dy <= threshold * threshold;
    }

    /** The driving branch of a tick. */
    method SwitchWhenNear(position: Option<(real, real)>, now: real)
      requires cfg.Valid() && index < |cfg.waypoints|
      modifies this
      ensures Abstract() == SwitchEarly(cfg, old(Abstract()), now, position) && clock == old(clock)
    {
      if position.None? {
        return;
      }
      var waypoint := cfg.waypoints[index];
      var needsPause := waypoint.stop || waypoint.waitTime > 0.0;
      var isLast := index == |cfg.waypoints| - 1;
      if isLast && !needsPause {
        return;
      }
      var near := NearCurrentWaypoint(position.value);
      if near {
        ArriveAtWaypoint(now, false);
      }
    }

    method TimerCallback(position: Option<(real, real)>, now: real)
      requires cfg.Valid() && index < |cfg.waypoints|
      requires waitingUntil.Some? ==> waitingFinishesRoute || index + 1 < |cfg.waypoints|
      modifies this
      ensures Abstract() == OnTimer(cfg, old(Abstract()), now, position) && clock == old(clock)
    {
      if holdingStop {
        PublishSafetyZero();
      }
      if finished {
        return;
      }
      if transitionInProgress {
        return;
      }
      if goalHandle.None? && waitingUntil.None? {
        return;
      }
      if waitingUntil.Some? {
        ResumeWhenDue(now);
        return;
      }
      SwitchWhenNear(position, now);
    }

    method RunCallback(e: Event, now: real)
      requires e.WellFormed() && cfg.Valid() && index < |cfg.waypoints|
      requires waitingUntil.Some? ==> waitingFinishesRoute || index + 1 < |cfg.waypoints|
      requires e.CancelReply? || e.CanceledResult? ==> e.callback.isLast || index + 1 < |cfg.waypoints|
      modifies this
      ensures Abstract() == Protocol.RunCallback(cfg, old(Abstract()), now, e) && clock == old(clock)
    {
      match e {
        case Response(serial, outcome) => GoalResponse(serial, outcome, now);
        case Result(serial, outcome) => GoalResult(serial, outcome, now);
        case CancelReply(c, outcome) => CancelFinished(c.waitSeconds, c.isLast, outcome, now);
        case CanceledResult(c, _) => CancelResultFinished(c.waitSeconds, c.isLast, now);
        case Timer(position) => TimerCallback(position, now);
        case GoalEnds(_) =>
      }
    }

    /** The executor: take the delivered callback out of pending and run it. */
    method Deliver(e: Event, now: real)
      requires Valid() && Enabled(Abstract(), clock, e, now)
      modifies this
      ensures Abstract() == Handle(cfg, old(Abstract()), now, e)
      ensures Valid() && clock == now
    {
      ghost var s := Abstract();
      StepKeepsInv(cfg, start, s, clock, e, now);
      DeliveryFits(cfg, start, s, clock, e, now);
      clock := now;
      if e.Delivers().Some? {
        pending := pending - multiset{e.Delivers().value};
      }
      assert Abstract() == Taken(s, e);
      RunCallback(e, now);
    }
  }

  /** An enabled event finds the route where its callback expects it: no step past the last waypoint. */
  lemma DeliveryFits(cfg: Config, start: nat, s: State, clock: real, e: Event, now: real)
    requires Inv(cfg, start, s, clock) && Enabled(s, clock, e, now)
    ensures cfg.Valid() && s.index < |cfg.waypoints|
    ensures s.waitingUntil.Some? ==> s.waitingFinishesRoute || s.index + 1 < |cfg.waypoints|
    ensures e.CancelReply? || e.CanceledResult? ==> e.callback.isLast || s.index + 1 < |cfg.waypoints|
  {
    if e.CancelReply? || e.CanceledResult? {
      if s.finished || Live(cfg, s) != Some(e.callback) {
        TakeStale(cfg, start, s, clock, now, e.callback);
      }
    }
  }
}
