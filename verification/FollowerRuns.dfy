/**
  Whole runs of the follower against an environment that delivers pending callbacks in any
  order, lets Nav2 goals end when it likes, and ticks the timer.
*/
module FollowerRuns {
  import opened Wrappers
  import opened WaypointFormat
  import opened FollowerProtocol
  import opened FollowerInvariant
  import opened RealArithmetic

  /**
    `alive` holds the goals that are not terminal on the Nav2 server; `abandoned` those the
    follower stopped tracking on an error or an unconfirmed cancel while they were alive.
  */
  datatype World = World(f: State, alive: set<nat>, abandoned: set<nat>, clock: real)

  type Step = (Event, real)

  /** The server is truthful: a rejected goal, a returned result and a cancelled goal are terminal. */
  ghost predicate Possible(w: World, e: Event, now: real) {
    && Enabled(w.f, w.clock, e, now)
    && (match e
        case Response(serial, outcome) => outcome == Rejected ==> serial !in w.alive
        case Result(serial, outcome) => outcome != ResultError ==> serial !in w.alive
        case CanceledResult(c, raised) => !raised ==> c.goal !in w.alive
        case GoalEnds(goal) => goal in w.alive
        case _ => true)
  }

  /** The goal, if any, that this event makes the follower drop without knowing it has ended. */
  function Dropped(s: State, e: Event): Option<nat>
    requires e.WellFormed()
  {
    match e
    case Response(serial, RequestError) => if serial == s.goalSerial && !s.finished then Some(serial) else None
    case Result(serial, ResultError) =>
      if serial == s.goalSerial && !s.finished && s.waitingUntil.None? then Some(serial) else None
    case CancelReply(c, outcome) =>
      if outcome == GoalsCanceling && s.goalResultFuture.Some? then None else Some(c.goal)
    case CanceledResult(c, raised) => if raised then Some(c.goal) else None
    case _ => None
  }

  function Newest(before: State, after: State): set<nat> {
    if |after.sends| > |before.sends| then {after.sends[|after.sends| - 1].serial} else {}
  }

  function Next(cfg: Config, w: World, e: Event, now: real): World
    requires e.WellFormed()
  {
    var f := Handle(cfg, w.f, now, e);
    var remaining := if e.GoalEnds? then w.alive - {e.goal} else w.alive;
    var lost := match Dropped(w.f, e) case None => {} case Some(g) => {g} * remaining;
    World(f, remaining + Newest(w.f, f), w.abandoned + lost, now)
  }

  function Begin(cfg: Config, start: nat, now: real): World {
    var f := SendCurrentGoal(cfg, Initial(start), now);
    World(f, Newest(Initial(start), f), {}, now)
  }

  ghost predicate LegalRun(cfg: Config, w: World, steps: seq<Step>)
    decreases |steps|
  {
    steps == [] || (Possible(w, steps[0].0, steps[0].1) &&
        LegalRun(cfg, Next(cfg, w, steps[0].0, steps[0].1), steps[1..]))
  }

  ghost function Exec(cfg: Config, w: World, steps: seq<Step>): World
    requires LegalRun(cfg, w, steps)
    decreases |steps|
  {
    if steps == [] then w else Exec(cfg, Next(cfg, w, steps[0].0, steps[0].1), steps[1..])
  }

  // ----- Live goals --------------------------------------------------------------------

  /** The goal the follower believes may still be running. */
  ghost function Tracked(cfg: Config, s: State): set<nat>
    requires s.index < |cfg.waypoints|
  {
    if s.finished then {}
    else match Live(cfg, s)
      case None => {}
      case Some(GoalResponse(serial)) => {serial}
      case Some(GoalResult(serial)) => {serial}
      case Some(CancelFinished(goal, _, _)) => {goal}
      case Some(CancelResultFinished(goal, _, _)) => {goal}
  }

  ghost predicate WorldInv(cfg: Config, start: nat, w: World) {
    && Inv(cfg, start, w.f, w.clock)
    && w.alive <= w.abandoned + Tracked(cfg, w.f)
    && (forall g :: g in w.alive || g in w.abandoned ==> g <= w.f.goalSerial)
  }

  lemma BeginEstablishes(cfg: Config, start: nat, now: real)
    requires cfg.Valid() && start < |cfg.waypoints|
    ensures WorldInv(cfg, start, Begin(cfg, start, now))
  {
    StartEstablishesInv(cfg, start, now);
  }

  /** The goals an event shows to have ended on the server. */
  function Confirmed(e: Event): set<nat>
    requires e.WellFormed()
  {
    match e
    case Response(serial, Rejected) => {serial}
    case Result(serial, outcome) => if outcome != ResultError then {serial} else {}
    case CanceledResult(c, raised) => if raised then {} else {c.goal}
    case _ => {}
  }

  function DroppedSet(s: State, e: Event): set<nat>
    requires e.WellFormed()
  {
    match Dropped(s, e) case None => {} case Some(g) => {g}
  }

  /** A tracked goal stays tracked unless the event ends it or drops it, and always one of those before a new goal. */
  ghost predicate Tracking(cfg: Config, s: State, e: Event, s': State)
    requires e.WellFormed() && s.index < |cfg.waypoints| && s'.index < |cfg.waypoints|
  {
    var settled := DroppedSet(s, e) + Confirmed(e);
    if |s'.sends| > |s.sends| then
      && Tracked(cfg, s) <= settled
      && s'.sends[|s'.sends| - 1].serial == s'.goalSerial > s.goalSerial
      && Tracked(cfg, s') == {s'.goalSerial}
    else
      s'.goalSerial >= s.goalSerial && Tracked(cfg, s) <= Tracked(cfg, s') + settled
  }

  lemma SendTracks(cfg: Config, s: State, now: real)
    requires s.index < |cfg.waypoints| && !s.finished && s.waitingUntil.None?
    requires !s.transitionInProgress && s.goalHandle.None?
    ensures var t := SendCurrentGoal(cfg, s, now);
      && t.index < |cfg.waypoints| && |t.sends| == |s.sends| + 1
      && t.sends[|s.sends|].serial == t.goalSerial == s.goalSerial + 1
      && Tracked(cfg, t) == {t.goalSerial}
  {
  }

  /** Leaving a waypoint either sends the next goal or finishes. */
  lemma LeaveTracks(cfg: Config, s: State, now: real, isLast: bool)
    requires s.index < |cfg.waypoints| && isLast == cfg.IsLast(s.index)
    requires !s.finished && s.waitingUntil.None? && !s.transitionInProgress
    ensures var t := if isLast then CompleteOrLoop(cfg, s, now) else Advance(cfg, s, now);
      && t.index < |cfg.waypoints|
      && (if t.finished then t.sends == s.sends && t.goalSerial == s.goalSerial
          else |t.sends| == |s.sends| + 1 && t.sends[|s.sends|].serial == t.goalSerial == s.goalSerial + 1
               && Tracked(cfg, t) == {t.goalSerial})
  {
    if isLast && cfg.loop {
      SendTracks(cfg, s.(index := 0, goalHandle := None), now);
    } else if !isLast {
      SendTracks(cfg, s.(index := s.index + 1, goalHandle := None), now);
    }
  }

  lemma ArrivalTracks(cfg: Config, s: State, now: real, waitSeconds: real, isLast: bool)
    requires s.index < |cfg.waypoints| && isLast == cfg.IsLast(s.index)
    requires !s.finished && s.waitingUntil.None?
    ensures var t := FinishArrival(cfg, s, now, waitSeconds, isLast);
      && t.index < |cfg.waypoints|
      && (if |t.sends| == |s.sends| then t.goalSerial == s.goalSerial && Tracked(cfg, t) == {}
          else |t.sends| == |s.sends| + 1 && t.sends[|s.sends|].serial == t.goalSerial == s.goalSerial + 1
               && Tracked(cfg, t) == {t.goalSerial})
  {
    if waitSeconds <= 0.0 {
      var r := s.(transitionInProgress := false, goalHandle := None, goalResultFuture := None,
                  arrivedAt := s.arrivedAt[if s.sends != [] then |s.sends| - 1 else 0 := now]);
      LeaveTracks(cfg, r, now, isLast);
    }
  }

  lemma FailureTracks(cfg: Config, s: State, now: real)
    requires s.index < |cfg.waypoints| && !s.finished && s.waitingUntil.None?
    ensures var t := HandleFailure(cfg, s, now, s.goalSerial);
      && t.index < |cfg.waypoints|
      && (if |t.sends| == |s.sends| then t.goalSerial == s.goalSerial && Tracked(cfg, t) == {}
          else |t.sends| == |s.sends| + 1 && t.sends[|s.sends|].serial == t.goalSerial == s.goalSerial + 1
               && Tracked(cfg, t) == {t.goalSerial})
  {
    if !cfg.stopOnFailure {
      var r := s.(transitionInProgress := false, goalHandle := None, goalResultFuture := None,
                  skipped := s.skipped + {if s.sends != [] then |s.sends| - 1 else 0});
      LeaveTracks(cfg, r, now, cfg.IsLast(s.index));
    }
  }

  lemma ResponseTracks(cfg: Config, start: nat, s: State, clock: real, e: Event, now: real)
    requires Inv(cfg, start, s, clock) && Enabled(s, clock, e, now) && !s.finished
    requires e.Response? && Live(cfg, s) == e.Delivers()
    ensures var s' := Handle(cfg, s, now, e);
      s'.index < |cfg.waypoints| && Tracking(cfg, s, e, s')
  {
    TakeLive(cfg, start, s, clock, now, e);
    var t := Taken(s, e);
    assert Tracked(cfg, s) == {s.goalSerial};
    if e.response != Accepted {
      FailureTracks(cfg, t, now);
    } else {
      assert Tracked(cfg, Handle(cfg, s, now, e)) == {s.goalSerial};
    }
  }

  /** A result of the current goal, given only what it takes to track the goals over it. */
  lemma CurrentResultTracks(cfg: Config, s: State, serial: nat, outcome: ResultOutcome, now: real)
    requires s.index < |cfg.waypoints| && !s.finished && s.waitingUntil.None?
    requires serial == s.goalSerial && Tracked(cfg, s) <= {serial}
    ensures var e := Event.Result(serial, outcome);
      var s' := Handle(cfg, s, now, e);
      s'.index < |cfg.waypoints| && Tracking(cfg, s, e, s')
  {
    var e := Event.Result(serial, outcome);
    var t := Taken(s, e);
    if outcome == Succeeded {
      ArrivalTracks(cfg, t, now, cfg.Dwell(t.index), cfg.IsLast(t.index));
      assert Handle(cfg, s, now, e) == FinishArrival(cfg, t, now, cfg.Dwell(t.index), cfg.IsLast(t.index));
    } else {
      FailureTracks(cfg, t, now);
      assert Handle(cfg, s, now, e) == HandleFailure(cfg, t, now, t.goalSerial);
    }
  }

  lemma ResultTracks(cfg: Config, start: nat, s: State, clock: real, e: Event, now: real)
    requires Inv(cfg, start, s, clock) && Enabled(s, clock, e, now) && !s.finished
    requires e.Result? && Live(cfg, s) == e.Delivers()
    ensures var s' := Handle(cfg, s, now, e);
      s'.index < |cfg.waypoints| && Tracking(cfg, s, e, s')
  {
    CurrentResultTracks(cfg, s, e.serial, e.result, now);
  }

  /** A confirmed cancel goes on waiting for the goal. */
  lemma ConfirmedTracks(cfg: Config, s: State, c: Callback, now: real)
    requires s.index < |cfg.waypoints| && c.CancelFinished?
    requires Tracked(cfg, s) == {c.goal} && s.goalHandle == s.goalResultFuture == Some(c.goal)
    requires !s.finished && s.waitingUntil.None? && s.transitionInProgress && c !in s.pending - multiset{c}
    requires c.waitSeconds == cfg.Dwell(s.index) && c.isLast == cfg.IsLast(s.index)
    ensures var e := Event.CancelReply(c, GoalsCanceling);
      var s' := Handle(cfg, s, now, e);
      s'.index < |cfg.waypoints| && Tracking(cfg, s, e, s')
  {
    var s' := Handle(cfg, s, now, Event.CancelReply(c, GoalsCanceling));
    var d := CancelResultFinished(c.goal, c.waitSeconds, c.isLast);
    assert s' == s.(pending := s.pending - multiset{c} + multiset{d});
    NextIsResult(cfg, s, c);
    assert s'.sends == s.sends && s'.goalSerial == s.goalSerial;
  }

  lemma NextIsResult(cfg: Config, s: State, c: Callback)
    requires s.index < |cfg.waypoints| && c.CancelFinished?
    requires s.goalHandle == Some(c.goal)
    requires !s.finished && s.waitingUntil.None? && s.transitionInProgress && c !in s.pending - multiset{c}
    requires c.waitSeconds == cfg.Dwell(s.index) && c.isLast == cfg.IsLast(s.index)
    ensures var d := CancelResultFinished(c.goal, c.waitSeconds, c.isLast);
      Tracked(cfg, s.(pending := s.pending - multiset{c} + multiset{d})) == {c.goal}
  {
  }

  /** Any other reply drops the goal. */
  lemma UnconfirmedTracks(cfg: Config, s: State, c: Callback, reply: CancelOutcome, now: real)
    requires s.index < |cfg.waypoints| && c.CancelFinished? && reply != GoalsCanceling
    requires Tracked(cfg, s) == {c.goal} && !s.finished && s.waitingUntil.None?
    requires c.isLast == cfg.IsLast(s.index)
    ensures var e := Event.CancelReply(c, reply);
      var s' := Handle(cfg, s, now, e);
      s'.index < |cfg.waypoints| && Tracking(cfg, s, e, s')
  {
    var t := Taken(s, Event.CancelReply(c, reply));
    ArrivalTracks(cfg, PublishSafetyZero(t), now, c.waitSeconds, c.isLast);
    assert Handle(cfg, s, now, Event.CancelReply(c, reply))
        == FinishCancelTransition(cfg, t, now, c.waitSeconds, c.isLast);
  }

  lemma CancelReplyTracks(cfg: Config, start: nat, s: State, clock: real, e: Event, now: real)
    requires Inv(cfg, start, s, clock) && Enabled(s, clock, e, now) && !s.finished
    requires e.CancelReply? && Live(cfg, s) == e.Delivers()
    ensures var s' := Handle(cfg, s, now, e);
      s'.index < |cfg.waypoints| && Tracking(cfg, s, e, s')
  {
    CancellationIsLive(cfg, start, s, clock, e.callback);
    assert Tracked(cfg, s) == {e.callback.goal};
    if e.reply == GoalsCanceling {
      ConfirmedTracks(cfg, s, e.callback, now);
    } else {
      UnconfirmedTracks(cfg, s, e.callback, e.reply, now);
    }
  }

  lemma CanceledResultTracks(cfg: Config, start: nat, s: State, clock: real, e: Event, now: real)
    requires Inv(cfg, start, s, clock) && Enabled(s, clock, e, now) && !s.finished
    requires e.CanceledResult? && Live(cfg, s) == e.Delivers()
    ensures var s' := Handle(cfg, s, now, e);
      s'.index < |cfg.waypoints| && Tracking(cfg, s, e, s')
  {
    TakeLive(cfg, start, s, clock, now, e);
    var t := Taken(s, e);
    ArrivalTracks(cfg, PublishSafetyZero(t), now, e.callback.waitSeconds, e.callback.isLast);
  }

  lemma LiveDeliveryTracks(cfg: Config, start: nat, s: State, clock: real, e: Event, now: real)
    requires Inv(cfg, start, s, clock) && Enabled(s, clock, e, now) && !s.finished
    requires e.Delivers().Some? && Live(cfg, s) == e.Delivers()
    ensures var s' := Handle(cfg, s, now, e);
      s'.index < |cfg.waypoints| && Tracking(cfg, s, e, s')
  {
    match e {
      case Response(_, _) => ResponseTracks(cfg, start, s, clock, e, now);
      case Result(_, _) => ResultTracks(cfg, start, s, clock, e, now);
      case CancelReply(_, _) => CancelReplyTracks(cfg, start, s, clock, e, now);
      case CanceledResult(_, _) => CanceledResultTracks(cfg, start, s, clock, e, now);
    }
  }

  lemma TimerTracks(cfg: Config, start: nat, s: State, clock: real, position: Option<(real, real)>, now: real)
    requires Inv(cfg, start, s, clock) && clock <= now
    ensures var s' := OnTimer(cfg, s, now, position);
      s'.index < |cfg.waypoints| && Tracking(cfg, s, Timer(position), s')
  {
    var r := if s.holdingStop then PublishSafetyZero(s) else s;
    if !r.finished && r.waitingUntil.Some? && r.waitingUntil.value <= now {
      LeaveTracks(cfg, r.(holdingStop := false, waitingUntil := None), now, r.waitingFinishesRoute);
    }
  }

  lemma StateTracks(cfg: Config, start: nat, s: State, clock: real, e: Event, now: real)
    requires Inv(cfg, start, s, clock) && Enabled(s, clock, e, now)
    ensures var s' := Handle(cfg, s, now, e);
      s'.index < |cfg.waypoints| && Tracking(cfg, s, e, s')
  {
    match e {
      case Timer(position) => TimerTracks(cfg, start, s, clock, position, now);
      case GoalEnds(_) =>
      case _ =>
        if !s.finished && Live(cfg, s) == e.Delivers() {
          LiveDeliveryTracks(cfg, start, s, clock, e, now);
        } else {
          TakeStale(cfg, start, s, clock, now, e.Delivers().value);
        }
    }
  }

  /** What one event does to the set of live goals. */
  lemma TrackingStep(cfg: Config, start: nat, w: World, e: Event, now: real)
    requires WorldInv(cfg, start, w) && Possible(w, e, now)
    ensures Inv(cfg, start, Handle(cfg, w.f, now, e), now)
    ensures var w' := Next(cfg, w, e, now);
      && w'.alive <= w'.abandoned + Tracked(cfg, w'.f)
      && w'.f.goalSerial >= w.f.goalSerial
      && (Newest(w.f, w'.f) != {} ==>
            && w'.alive - Newest(w.f, w'.f) <= w'.abandoned
            && Newest(w.f, w'.f) == {w'.f.goalSerial} && w'.f.goalSerial > w.f.goalSerial)
  {
    StepKeepsInv(cfg, start, w.f, w.clock, e, now);
    StateTracks(cfg, start, w.f, w.clock, e, now);
    assert Confirmed(e) * w.alive == {};
  }

  lemma StepKeepsWorldInv(cfg: Config, start: nat, w: World, e: Event, now: real)
    requires WorldInv(cfg, start, w) && Possible(w, e, now)
    ensures WorldInv(cfg, start, Next(cfg, w, e, now))
  {
    TrackingStep(cfg, start, w, e, now);
  }

  /** The invariant holds after every run. */
  lemma {:induction false} InvariantOverRuns(cfg: Config, start: nat, w: World, steps: seq<Step>)
    requires WorldInv(cfg, start, w) && LegalRun(cfg, w, steps)
    ensures WorldInv(cfg, start, Exec(cfg, w, steps))
    decreases |steps|
  {
    if steps != [] {
      StepKeepsWorldInv(cfg, start, w, steps[0].0, steps[0].1);
      InvariantOverRuns(cfg, start, Next(cfg, w, steps[0].0, steps[0].1), steps[1..]);
    }
  }

  /** As long as no goal was abandoned alive, at most one goal is live. */
  lemma NeverTwoLiveGoals(cfg: Config, start: nat, now: real, steps: seq<Step>)
    requires cfg.Valid() && start < |cfg.waypoints|
    requires LegalRun(cfg, Begin(cfg, start, now), steps)
    ensures var w := Exec(cfg, Begin(cfg, start, now), steps);
      w.alive * w.abandoned == {} ==> |w.alive| <= 1
  {
    BeginEstablishes(cfg, start, now);
    InvariantOverRuns(cfg, start, Begin(cfg, start, now), steps);
    var w := Exec(cfg, Begin(cfg, start, now), steps);
    if w.alive * w.abandoned == {} && w.alive != {} {
      var g :| g in w.alive;
      assert forall h :: h in w.alive ==> h in Tracked(cfg, w.f);
      assert w.alive == {g};
    }
  }

  /** A send puts two goals on the server exactly when one that was abandoned is still running there. */
  lemma SecondGoalExactly(cfg: Config, start: nat, w: World, e: Event, now: real)
    requires WorldInv(cfg, start, w) && Possible(w, e, now)
    requires |Next(cfg, w, e, now).f.sends| > |w.f.sends|
    ensures var w' := Next(cfg, w, e, now);
      |w'.alive| > 1 <==> exists g :: g in w'.alive && g in w'.abandoned
  {
    TrackingStep(cfg, start, w, e, now);
    var w' := Next(cfg, w, e, now);
    var newest := w'.f.goalSerial;
    assert newest in w'.alive && newest !in w'.abandoned;
    if g :| g in w'.alive && g in w'.abandoned {
      assert {g, newest} <= w'.alive;
      assert |{g, newest}| == 2;
      SubsetSize({g, newest}, w'.alive);
    } else {
      assert w'.alive == {newest};
    }
  }

  lemma {:induction false} SubsetSize(a: set<nat>, b: set<nat>)
    requires a <= b
    ensures |a| <= |b|
    decreases |a|
  {
    if x :| x in a {
      SubsetSize(a - {x}, b - {x});
    }
  }

  lemma ThreeSteps(cfg: Config, w: World, a: Step, b: Step, c: Step)
    requires Possible(w, a.0, a.1)
    requires var w1 := Next(cfg, w, a.0, a.1); Possible(w1, b.0, b.1) && Possible(Next(cfg, w1, b.0, b.1), c.0, c.1)
    ensures LegalRun(cfg, w, [a, b, c])
    ensures var w1 := Next(cfg, w, a.0, a.1);
      var w2 := Next(cfg, w1, b.0, b.1);
      Exec(cfg, w, [a, b, c]) == Next(cfg, w2, c.0, c.1)
  {
    var w1 := Next(cfg, w, a.0, a.1);
    var w2 := Next(cfg, w1, b.0, b.1);
    var w3 := Next(cfg, w2, c.0, c.1);
    assert [a, b, c][1..] == [b, c] && [b, c][1..] == [c];
    assert LegalRun(cfg, w2, [c]) && Exec(cfg, w2, [c]) == w3;
    assert LegalRun(cfg, w1, [b, c]) && Exec(cfg, w1, [b, c]) == w3;
  }

  /** A two-point route without pauses, and its state once the first goal is accepted. */
  function TwoPoints(): Config {
    var w := Waypoint(1, 0.0, 0.0, 0.0, -1.0, false, 0.0);
    Config([w, w], false, 1.0, 1.0, 5.0, false)
  }

  lemma FirstGoalActive()
    ensures Possible(Begin(TwoPoints(), 0, 0.0), Response(1, Accepted), 0.0)
    ensures var w := Next(TwoPoints(), Begin(TwoPoints(), 0, 0.0), Response(1, Accepted), 0.0);
      w == World(Initial(0).(goalSerial := 1, goalHandle := Some(1), goalResultFuture := Some(1),
                             sends := [Send(0, 1, 0.0)], pending := multiset{GoalResult(1)}), {1}, {}, 0.0)
  {
    var w := Begin(TwoPoints(), 0, 0.0);
    assert w.f.pending == multiset{GoalResponse(1)};
  }

  /** The robot is within the threshold: the goal is cancelled, and an empty reply to that is possible. */
  lemma EarlySwitch(w: World)
    requires w.f.index == 0 && w.f.goalSerial == 1 && w.f.goalHandle == Some(1) && !w.f.holdingStop
    requires !w.f.finished && w.f.waitingUntil.None? && !w.f.transitionInProgress
    requires w.alive == {1} && w.clock == 0.0
    ensures Possible(w, Timer(Some((0.0, 0.0))), 0.0)
    ensures var w' := Next(TwoPoints(), w, Timer(Some((0.0, 0.0))), 0.0);
      && w'.f.index == 0 && w'.f.goalSerial == 2 && !w'.f.finished && w'.f.waitingUntil.None? && w'.alive == {1}
      && Possible(w', CancelReply(CancelFinished(1, 0.0, false), NoneCanceling), 0.0)
  {
    assert WithinThreshold(TwoPoints(), 0, (0.0, 0.0));
    assert Handle(TwoPoints(), w.f, 0.0, Timer(Some((0.0, 0.0))))
        == w.f.(transitionInProgress := true, goalSerial := 2, cancels := w.f.cancels + [1],
                pending := w.f.pending + multiset{CancelFinished(1, 0.0, false)});
  }

  lemma UnconfirmedReply(s: State)
    requires s.index == 0 && s.goalSerial == 2 && !s.finished && s.waitingUntil.None?
    ensures OnCancelFinished(TwoPoints(), s, 0.0, 0.0, false, NoneCanceling).sends == s.sends + [Send(1, 3, 0.0)]
    ensures OnCancelFinished(TwoPoints(), s, 0.0, 0.0, false, NoneCanceling).goalSerial == 3
  {
    var r := PublishSafetyZero(s).(transitionInProgress := false, goalHandle := None, goalResultFuture := None,
                                   arrivedAt := s.arrivedAt[if s.sends != [] then |s.sends| - 1 else 0 := 0.0]);
    assert OnCancelFinished(TwoPoints(), s, 0.0, 0.0, false, NoneCanceling) == Advance(TwoPoints(), r, 0.0);
  }

  lemma UnconfirmedSwitch(w: World)
    requires w.f.index == 0 && w.f.goalSerial == 2 && !w.f.finished && w.f.waitingUntil.None?
    ensures var w' := Next(TwoPoints(), w, CancelReply(CancelFinished(1, 0.0, false), NoneCanceling), 0.0);
      w'.alive == w.alive + {3}
  {
    UnconfirmedReply(Taken(w.f, CancelReply(CancelFinished(1, 0.0, false), NoneCanceling)));
  }

  /**
    The documented wait for the old goal's cancellation fails when the cancel is not confirmed:
    start, acceptance, an early switch and an empty cancel reply leave two goals running.
  */
  lemma UnconfirmedCancelRunsTwoGoals() returns (steps: seq<Step>)
    ensures LegalRun(TwoPoints(), Begin(TwoPoints(), 0, 0.0), steps)
    ensures Exec(TwoPoints(), Begin(TwoPoints(), 0, 0.0), steps).alive == {1, 3}
  {
    var cfg, c := TwoPoints(), CancelFinished(1, 0.0, false);
    var a, b, d := (Response(1, Accepted), 0.0), (Timer(Some((0.0, 0.0))), 0.0), (CancelReply(c, NoneCanceling), 0.0);
    FirstGoalActive();
    var w1 := Next(cfg, Begin(cfg, 0, 0.0), a.0, a.1);
    EarlySwitch(w1);
    var w2 := Next(cfg, w1, b.0, b.1);
    UnconfirmedSwitch(w2);
    steps := [a, b, d];
    ThreeSteps(cfg, Begin(cfg, 0, 0.0), a, b, d);
  }

  // ----- One continuation --------------------------------------------------------------

  /** A pending callback whose delivery would not be ignored. */
  predicate Continues(s: State, c: Callback) {
    (c.GoalResult? || c.GoalResponse?) ==> c.serial == s.goalSerial
  }

  /** After every run the unfinished route has exactly one way forward: one callback, or a running dwell. */
  lemma ExactlyOneContinuation(cfg: Config, start: nat, now: real, steps: seq<Step>)
    requires cfg.Valid() && start < |cfg.waypoints|
    requires LegalRun(cfg, Begin(cfg, start, now), steps)
    ensures var s := Exec(cfg, Begin(cfg, start, now), steps).f;
      && !s.indexError && s.index < |cfg.waypoints|
      && (!s.finished ==>
            if s.waitingUntil.Some? then
              s.waitingFinishesRoute == cfg.IsLast(s.index) && forall c :: c in s.pending ==> !Continues(s, c)
            else
              var live := Live(cfg, s);
              && live.Some? && s.pending[live.value] == 1 && Continues(s, live.value)
              && (forall c :: c in s.pending && Continues(s, c) ==> c == live.value)
              && (!live.value.GoalResponse? && !live.value.GoalResult? ==>
                    live.value.waitSeconds == cfg.Dwell(s.index) && live.value.isLast == cfg.IsLast(s.index)))
  {
    BeginEstablishes(cfg, start, now);
    InvariantOverRuns(cfg, start, Begin(cfg, start, now), steps);
    var s := Exec(cfg, Begin(cfg, start, now), steps).f;
    if !s.finished && s.waitingUntil.None? {
      var live := Live(cfg, s).value;
      assert live !in s.pending - multiset{live};
      assert forall c :: c in s.pending ==> c == live || c in s.pending - multiset{live};
    }
  }

  // ----- Order and timing of the route -------------------------------------------------

  lemma RouteIndex(cfg: Config, start: nat, s: State, clock: real, k: nat)
    requires Inv(cfg, start, s, clock) && k < |s.sends|
    ensures s.sends[k].index == if cfg.loop then (start + k) % |cfg.waypoints| else start + k
  {
    assert s.sends[k].index == (start + k) % |cfg.waypoints|;
    if !cfg.loop {
      SmallRemainder(start + k, |cfg.waypoints|);
    }
  }

  /** The goals sent follow the list from the start index, around again only when looping, each one once. */
  lemma GoalsFollowTheList(cfg: Config, start: nat, now: real, steps: seq<Step>, k: nat)
    requires cfg.Valid() && start < |cfg.waypoints|
    requires LegalRun(cfg, Begin(cfg, start, now), steps)
    ensures var s := Exec(cfg, Begin(cfg, start, now), steps).f;
      && s.index < |cfg.waypoints|
      && (k < |s.sends| ==> s.sends[k].index == if cfg.loop then (start + k) % |cfg.waypoints| else start + k)
  {
    BeginEstablishes(cfg, start, now);
    InvariantOverRuns(cfg, start, Begin(cfg, start, now), steps);
    var w := Exec(cfg, Begin(cfg, start, now), steps);
    if k < |w.f.sends| {
      RouteIndex(cfg, start, w.f, w.clock, k);
    }
  }

  /** Every message the follower ever puts on the stop topic is false, whatever the documentation says. */
  lemma StopTopicNeverTrue(cfg: Config, start: nat, now: real, steps: seq<Step>)
    requires cfg.Valid() && start < |cfg.waypoints|
    requires LegalRun(cfg, Begin(cfg, start, now), steps)
    ensures true !in Exec(cfg, Begin(cfg, start, now), steps).f.stops
  {
    BeginEstablishes(cfg, start, now);
    InvariantOverRuns(cfg, start, Begin(cfg, start, now), steps);
  }

  /**
    Every waypoint passed was either arrived at or, when failures are not fatal, skipped; the
    goal after an arrival left no earlier than the dwell demands.
  */
  lemma DwellsAreRespected(cfg: Config, start: nat, now: real, steps: seq<Step>, k: nat)
    requires cfg.Valid() && start < |cfg.waypoints|
    requires LegalRun(cfg, Begin(cfg, start, now), steps)
    ensures var s := Exec(cfg, Begin(cfg, start, now), steps).f;
      var i := (start + k) % |cfg.waypoints|;
      k + 1 < |s.sends| ==>
        if k in s.arrivedAt then
          k !in s.skipped && s.sends[k].at <= s.arrivedAt[k]
          && s.sends[k + 1].at >= s.arrivedAt[k]
          && (cfg.waypoints[i].waitTime > 0.0 ==>
                s.sends[k + 1].at >= s.arrivedAt[k] + cfg.waypoints[i].waitTime)
          && (cfg.waypoints[i].waitTime <= 0.0 && cfg.waypoints[i].stop ==>
                s.sends[k + 1].at >= s.arrivedAt[k] + cfg.stopDuration)
        else
          k in s.skipped && !cfg.stopOnFailure
  {
    BeginEstablishes(cfg, start, now);
    InvariantOverRuns(cfg, start, Begin(cfg, start, now), steps);
    var s := Exec(cfg, Begin(cfg, start, now), steps).f;
    if k + 1 < |s.sends| {
      assert Left(cfg, s, k);
    }
  }

  /** While dwelling no tracked goal is alive; until the time is up nothing is sent and every tick commands zero. */
  lemma DwellIsStill(cfg: Config, start: nat, w: World, e: Event, now: real)
    requires WorldInv(cfg, start, w) && Possible(w, e, now) && w.f.waitingUntil.Some?
    ensures w.f.holdingStop && w.alive <= w.abandoned
    ensures var f' := Next(cfg, w, e, now).f;
      && (now < w.f.waitingUntil.value || !e.Timer? ==>
            f'.sends == w.f.sends && f'.waitingUntil == w.f.waitingUntil && f'.holdingStop)
      && (e.Timer? ==> f'.zeroTwists > w.f.zeroTwists)
  {
    match e.Delivers() {
      case Some(c) => TakeStale(cfg, start, w.f, w.clock, now, c);
      case None =>
    }
  }

  /** holdingStop is true exactly while a dwell is running, after every run. */
  lemma HoldingIffWaiting(cfg: Config, start: nat, now: real, steps: seq<Step>)
    requires cfg.Valid() && start < |cfg.waypoints|
    requires LegalRun(cfg, Begin(cfg, start, now), steps)
    ensures var s := Exec(cfg, Begin(cfg, start, now), steps).f;
      s.holdingStop <==> s.waitingUntil.Some?
  {
    BeginEstablishes(cfg, start, now);
    InvariantOverRuns(cfg, start, Begin(cfg, start, now), steps);
  }

  // ----- What is commanded -------------------------------------------------------------

  /** A zero twist was sent if the route ended or a dwell began. */
  predicate StopsWithZero(s: State, t: State) {
    && t.zeroTwists >= s.zeroTwists
    && ((t.finished && !s.finished) || (t.waitingUntil.Some? && s.waitingUntil.None?) ==> t.zeroTwists > s.zeroTwists)
  }

  /** The same, and no cancel was sent. */
  predicate StillOnPurpose(s: State, t: State) {
    t.cancels == s.cancels && StopsWithZero(s, t)
  }

  lemma SendIsStill(cfg: Config, s: State, now: real)
    ensures var t := SendCurrentGoal(cfg, s, now);
      t.cancels == s.cancels && t.zeroTwists == s.zeroTwists
      && t.finished == s.finished && t.waitingUntil == s.waitingUntil
  {
  }

  lemma LeaveIsStill(cfg: Config, s: State, now: real, isLast: bool)
    ensures StillOnPurpose(s, if isLast then CompleteOrLoop(cfg, s, now) else Advance(cfg, s, now))
  {
    SendIsStill(cfg, s.(index := 0, goalHandle := None), now);
    SendIsStill(cfg, s.(index := s.index + 1, goalHandle := None), now);
  }

  lemma ArrivalIsStill(cfg: Config, s: State, now: real, waitSeconds: real, isLast: bool)
    ensures StillOnPurpose(s, FinishArrival(cfg, s, now, waitSeconds, isLast))
  {
    var r := s.(transitionInProgress := false, goalHandle := None, goalResultFuture := None,
                arrivedAt := s.arrivedAt[if s.sends != [] then |s.sends| - 1 else 0 := now]);
    var t := FinishArrival(cfg, s, now, waitSeconds, isLast);
    if s.index >= |cfg.waypoints| {
      assert t == r.(indexError := true);
    } else if waitSeconds > 0.0 {
      assert t == BeginDwell(r, now, waitSeconds, isLast);
    } else {
      assert t == if isLast then CompleteOrLoop(cfg, r, now) else Advance(cfg, r, now);
      LeaveIsStill(cfg, r, now, isLast);
    }
  }

  lemma FailureIsStill(cfg: Config, s: State, now: real, serial: nat)
    ensures StillOnPurpose(s, HandleFailure(cfg, s, now, serial))
  {
    var r := s.(transitionInProgress := false, goalHandle := None, goalResultFuture := None,
                skipped := s.skipped + {if s.sends != [] then |s.sends| - 1 else 0});
    if serial == s.goalSerial && !s.finished && s.index < |cfg.waypoints| && !cfg.stopOnFailure {
      assert HandleFailure(cfg, s, now, serial)
          == if cfg.IsLast(r.index) then CompleteOrLoop(cfg, r, now) else Advance(cfg, r, now);
      LeaveIsStill(cfg, r, now, cfg.IsLast(r.index));
    }
  }

  lemma ResultIsStill(cfg: Config, s: State, now: real, serial: nat, outcome: ResultOutcome)
    ensures StillOnPurpose(s, OnGoalResult(cfg, s, now, serial, outcome))
  {
    if serial == s.goalSerial && !s.finished && s.waitingUntil.None? {
      if outcome == Succeeded && s.index < |cfg.waypoints| {
        ArrivalIsStill(cfg, s, now, cfg.Dwell(s.index), cfg.IsLast(s.index));
      } else {
        FailureIsStill(cfg, s, now, serial);
      }
    }
  }

  lemma ResponseIsStill(cfg: Config, s: State, now: real, serial: nat, outcome: ResponseOutcome)
    ensures StillOnPurpose(s, OnGoalResponse(cfg, s, now, serial, outcome))
  {
    FailureIsStill(cfg, s, now, serial);
  }

  lemma TransitionIsStill(cfg: Config, s: State, now: real, waitSeconds: real, isLast: bool)
    ensures StillOnPurpose(s, FinishCancelTransition(cfg, s, now, waitSeconds, isLast))
    ensures FinishCancelTransition(cfg, s, now, waitSeconds, isLast).zeroTwists > s.zeroTwists
  {
    ArrivalIsStill(cfg, PublishSafetyZero(s), now, waitSeconds, isLast);
  }

  /** A tick may end a route whose last waypoint pauses, and it may cancel a goal. */
  lemma TimerIsStill(cfg: Config, s: State, now: real, position: Option<(real, real)>)
    ensures StopsWithZero(s, OnTimer(cfg, s, now, position))
  {
    var r := if s.holdingStop then PublishSafetyZero(s) else s;
    if !r.finished && !r.transitionInProgress && r.waitingUntil.Some? && now >= r.waitingUntil.value {
      LeaveIsStill(cfg, r.(holdingStop := false, waitingUntil := None), now, r.waitingFinishesRoute);
    }
  }

  /**
    Whenever the route ends or a dwell begins, and before a cancelled goal is left behind, a zero twist
    goes out at once, on any event; and only a tick cancels a goal.
  */
  lemma StopsAreCommanded(cfg: Config, s: State, e: Event, now: real)
    requires e.WellFormed()
    ensures StopsWithZero(s, Handle(cfg, s, now, e))
    ensures !e.Timer? ==> Handle(cfg, s, now, e).cancels == s.cancels
    ensures e.CanceledResult? || (e.CancelReply? && !(e.reply == GoalsCanceling && s.goalResultFuture.Some?)) ==>
      Handle(cfg, s, now, e).zeroTwists > s.zeroTwists
  {
    var t := Taken(s, e);
    match e {
      case Response(serial, outcome) => ResponseIsStill(cfg, t, now, serial, outcome);
      case Result(serial, outcome) => ResultIsStill(cfg, t, now, serial, outcome);
      case CancelReply(c, _) => TransitionIsStill(cfg, t, now, c.waitSeconds, c.isLast);
      case CanceledResult(c, _) => TransitionIsStill(cfg, t, now, c.waitSeconds, c.isLast);
      case Timer(position) => TimerIsStill(cfg, t, now, position);
      case GoalEnds(_) =>
    }
  }

  /** A tick cancels the running goal exactly when the robot is near enough to a waypoint that may be left early. */
  lemma EarlySwitchExactly(cfg: Config, start: nat, s: State, clock: real, position: Option<(real, real)>, now: real)
    requires Inv(cfg, start, s, clock) && clock <= now
    ensures var s' := OnTimer(cfg, s, now, position);
      var w := cfg.waypoints[s.index];
      && (s'.cancels != s.cancels <==>
            (&& !s.finished && s.waitingUntil.None? && !s.transitionInProgress && s.goalHandle.Some?
             && (!cfg.IsLast(s.index) || NeedsPause(w))
             && position.Some? && WithinThreshold(cfg, s.index, position.value)))
      && (s'.cancels != s.cancels ==>
            && s.goalHandle == Some(s.goalSerial)
            && s'.cancels == s.cancels + [s.goalSerial]
            && s'.transitionInProgress && s'.goalSerial == s.goalSerial + 1 && s'.sends == s.sends)
  {
    assert s.cancels + [s.goalSerial] != s.cancels;
  }

  /**
    Near enough means that the distance is at most the precise threshold at a pause, and elsewhere at most the
    waypoint's own positive threshold or else the default one.
  */
  lemma ThresholdIsDistance(cfg: Config, index: nat, position: (real, real), distance: real)
    requires cfg.Valid() && index < |cfg.waypoints| && distance >= 0.0
    requires var w := cfg.waypoints[index];
      distance * distance == (w.x - position.0) * (w.x - position.0) + (w.y - position.1) * (w.y - position.1)
    ensures var w := cfg.waypoints[index];
      WithinThreshold(cfg, index, position) <==>
        distance <= if w.stop || w.waitTime > 0.0 then cfg.preciseThreshold
                    else if w.threshold > 0.0 then w.threshold
                    else cfg.defaultThreshold
  {
    SquareOrder(Threshold(cfg, cfg.waypoints[index]), distance);
  }
}
