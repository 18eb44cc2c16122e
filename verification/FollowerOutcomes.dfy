/**
  What each event comes to, from the configuration's fields and the event alone, and what a whole run
  comes to: why a route ends, what was arrived at and what was skipped.
*/
module FollowerOutcomes {
  import opened Wrappers
  import opened WaypointFormat
  import opened FollowerProtocol
  import opened FollowerInvariant
  import opened FollowerRuns
  import opened RealArithmetic

  // ----- What an event means -----------------------------------------------------------

  /** The current goal is refused, is lost, or ends without success. */
  predicate Fails(s: State, e: Event) {
    && !s.finished && s.waitingUntil.None?
    && match e
       case Response(serial, outcome) => serial == s.goalSerial && outcome != Accepted
       case Result(serial, outcome) => serial == s.goalSerial && outcome != Succeeded
       case _ => false
  }

  /** The current goal succeeds, or a waypoint left early is done with cancelling. */
  predicate Arrives(s: State, e: Event) {
    && !s.finished && s.waitingUntil.None?
    && match e
       case Result(serial, outcome) => serial == s.goalSerial && outcome == Succeeded
       case CancelReply(_, reply) => reply != GoalsCanceling
       case CanceledResult(_, _) => true
       case _ => false
  }

  predicate Accepts(s: State, e: Event) {
    !s.finished && e.Response? && e.serial == s.goalSerial && e.response == Accepted
  }

  predicate PauseEnds(s: State, e: Event, now: real) {
    !s.finished && e.Timer? && s.waitingUntil.Some? && s.waitingUntil.value <= now
  }

  /** How long to stay: an explicit wait wins over the stop duration. */
  function Pause(cfg: Config, w: Waypoint): real {
    if w.waitTime > 0.0 then w.waitTime else if w.stop && cfg.stopDuration > 0.0 then cfg.stopDuration else 0.0
  }

  /** A squared distance at which waypoint i may be left early. */
  predicate NearEnough(cfg: Config, i: nat, square: real)
    requires i < |cfg.waypoints|
  {
    var w := cfg.waypoints[i];
    if w.stop || w.waitTime > 0.0 then square <= cfg.preciseThreshold * cfg.preciseThreshold
    else if w.threshold > 0.0 then i + 1 < |cfg.waypoints| && square <= w.threshold * w.threshold
    else i + 1 < |cfg.waypoints| && square <= cfg.defaultThreshold * cfg.defaultThreshold
  }

  function Square(w: Waypoint, position: (real, real)): real {
    (w.x - position.0) * (w.x - position.0) + (w.y - position.1) * (w.y - position.1)
  }

  predicate LeavesEarly(cfg: Config, s: State, e: Event)
    requires s.index < |cfg.waypoints|
  {
    && !s.finished && s.waitingUntil.None? && !s.transitionInProgress && s.goalHandle.Some?
    && e.Timer? && e.position.Some? && NearEnough(cfg, s.index, Square(cfg.waypoints[s.index], e.position.value))
  }

  /** The waypoint is behind the robot: skipped, arrived at without a pause, or paused long enough. */
  predicate Leaves(cfg: Config, s: State, e: Event, now: real)
    requires s.index < |cfg.waypoints|
  {
    || (Fails(s, e) && !cfg.stopOnFailure)
    || (Arrives(s, e) && Pause(cfg, cfg.waypoints[s.index]) <= 0.0)
    || PauseEnds(s, e, now)
  }

  predicate GoesOn(cfg: Config, s: State, e: Event, now: real)
    requires s.index < |cfg.waypoints|
  {
    Leaves(cfg, s, e, now) && (cfg.loop || s.index + 1 < |cfg.waypoints|)
  }

  /** The route is over: its last waypoint was left, or a failure was fatal. */
  predicate Ends(cfg: Config, s: State, e: Event, now: real)
    requires s.index < |cfg.waypoints|
  {
    || (Leaves(cfg, s, e, now) && !cfg.loop && s.index + 1 == |cfg.waypoints|)
    || (Fails(s, e) && cfg.stopOnFailure)
  }

  predicate Pauses(cfg: Config, s: State, e: Event)
    requires s.index < |cfg.waypoints|
  {
    Arrives(s, e) && Pause(cfg, cfg.waypoints[s.index]) > 0.0
  }

  function One(b: bool): nat {
    if b then 1 else 0
  }

  /** The route after the event. */
  ghost predicate RouteAfter(cfg: Config, s: State, e: Event, now: real, t: State)
    requires s.index < |cfg.waypoints|
  {
    var next := if s.index + 1 < |cfg.waypoints| then s.index + 1 else 0;
    && t.finished == (s.finished || Ends(cfg, s, e, now))
    && (if GoesOn(cfg, s, e, now) then t.index == next && t.sends == s.sends + [Send(next, s.goalSerial + 1, now)]
        else t.index == s.index && t.sends == s.sends)
    && t.goalSerial == s.goalSerial + One(GoesOn(cfg, s, e, now) || LeavesEarly(cfg, s, e))
  }

  /** How the waypoint was dealt with. */
  ghost predicate RecordAfter(cfg: Config, s: State, e: Event, now: real, t: State)
    requires s.index < |cfg.waypoints|
  {
    && (s.sends != [] ==>
          && t.arrivedAt == (if Arrives(s, e) then s.arrivedAt[|s.sends| - 1 := now] else s.arrivedAt)
          && t.skipped == (if Fails(s, e) && !cfg.stopOnFailure then s.skipped + {|s.sends| - 1} else s.skipped))
    && t.waitingUntil ==
         if Pauses(cfg, s, e) then Some(now + Pause(cfg, cfg.waypoints[s.index]))
         else if PauseEnds(s, e, now) then None
         else s.waitingUntil
  }

  /** What is commanded: cancels, zero twists and stop messages. */
  ghost predicate CommandsAfter(cfg: Config, s: State, e: Event, now: real, t: State)
    requires s.index < |cfg.waypoints|
  {
    && t.cancels == (if LeavesEarly(cfg, s, e) then s.cancels + [s.goalSerial] else s.cancels)
    && t.zeroTwists == s.zeroTwists + One(e.Timer? && s.waitingUntil.Some?)
         + One(Arrives(s, e) && !e.Result?) + One(Pauses(cfg, s, e)) + One(Ends(cfg, s, e, now))
    && |t.stops| == |s.stops| + One(Pauses(cfg, s, e)) + One(Ends(cfg, s, e, now))
  }

  /** Which goal is out. */
  ghost predicate GoalAfter(cfg: Config, s: State, e: Event, now: real, t: State)
    requires s.index < |cfg.waypoints|
  {
    && t.goalHandle ==
         (if Accepts(s, e) then Some(s.goalSerial)
          else if Arrives(s, e) || (Fails(s, e) && !cfg.stopOnFailure) then None
          else s.goalHandle)
    && t.transitionInProgress == (LeavesEarly(cfg, s, e) || (s.transitionInProgress && !Arrives(s, e)))
  }

  ghost predicate Outcome(cfg: Config, s: State, e: Event, now: real, t: State)
    requires s.index < |cfg.waypoints|
  {
    && RouteAfter(cfg, s, e, now, t) && RecordAfter(cfg, s, e, now, t)
    && CommandsAfter(cfg, s, e, now, t) && GoalAfter(cfg, s, e, now, t)
  }

  // ----- Event by event ----------------------------------------------------------------

  /** From a waypoint on to the next one or to the end. */
  ghost predicate LeftBehind(cfg: Config, s: State, now: real, t: State)
    requires s.index < |cfg.waypoints|
  {
    var ends := !cfg.loop && s.index + 1 == |cfg.waypoints|;
    var next := if s.index + 1 < |cfg.waypoints| then s.index + 1 else 0;
    && t.finished == ends
    && (if ends then t.index == s.index && t.sends == s.sends && t.goalSerial == s.goalSerial
        else && t.index == next && t.sends == s.sends + [Send(next, s.goalSerial + 1, now)]
             && t.goalSerial == s.goalSerial + 1)
    && t.arrivedAt == s.arrivedAt && t.skipped == s.skipped && t.waitingUntil == s.waitingUntil
    && t.cancels == s.cancels && t.zeroTwists == s.zeroTwists + One(ends) && |t.stops| == |s.stops| + One(ends)
    && t.transitionInProgress == s.transitionInProgress && (s.goalHandle.None? ==> t.goalHandle.None?)
  }

  lemma LeavesBehind(cfg: Config, s: State, now: real, isLast: bool)
    requires s.index < |cfg.waypoints| && isLast == cfg.IsLast(s.index) && !s.finished && s.waitingUntil.None?
    ensures LeftBehind(cfg, s, now, if isLast then CompleteOrLoop(cfg, s, now) else Advance(cfg, s, now))
  {
  }

  /** The waypoint last sent is reached. */
  ghost predicate Arrived(cfg: Config, s: State, now: real, t: State)
    requires s.index < |cfg.waypoints|
  {
    var pause := Pause(cfg, cfg.waypoints[s.index]);
    var r := s.(transitionInProgress := false, goalHandle := None, goalResultFuture := None,
                arrivedAt := s.arrivedAt[if s.sends != [] then |s.sends| - 1 else 0 := now]);
    if pause <= 0.0 then LeftBehind(cfg, r, now, t)
    else
      && t.index == s.index && t.sends == s.sends && t.goalSerial == s.goalSerial && t.finished == s.finished
      && t.arrivedAt == r.arrivedAt && t.skipped == s.skipped && t.waitingUntil == Some(now + pause)
      && t.cancels == s.cancels && t.zeroTwists == s.zeroTwists + 1 && |t.stops| == |s.stops| + 1
      && !t.transitionInProgress && t.goalHandle.None?
  }

  lemma ArrivesAt(cfg: Config, s: State, now: real, waitSeconds: real, isLast: bool)
    requires s.index < |cfg.waypoints| && isLast == cfg.IsLast(s.index) && waitSeconds == cfg.Dwell(s.index)
    requires !s.finished && s.waitingUntil.None?
    ensures Arrived(cfg, s, now, FinishArrival(cfg, s, now, waitSeconds, isLast))
  {
    var r := s.(transitionInProgress := false, goalHandle := None, goalResultFuture := None,
                arrivedAt := s.arrivedAt[if s.sends != [] then |s.sends| - 1 else 0 := now]);
    if waitSeconds <= 0.0 {
      LeavesBehind(cfg, r, now, isLast);
    }
  }

  /** What a failure of the current goal does. */
  ghost predicate Failed(cfg: Config, s: State, now: real, t: State)
    requires s.index < |cfg.waypoints|
  {
    if cfg.stopOnFailure then
      && t.finished && t.index == s.index && t.sends == s.sends && t.goalSerial == s.goalSerial
      && t.arrivedAt == s.arrivedAt && t.skipped == s.skipped && t.waitingUntil == s.waitingUntil
      && t.cancels == s.cancels && t.zeroTwists == s.zeroTwists + 1 && |t.stops| == |s.stops| + 1
      && t.transitionInProgress == s.transitionInProgress && t.goalHandle == s.goalHandle
    else
      LeftBehind(cfg, s.(transitionInProgress := false, goalHandle := None, goalResultFuture := None,
                         skipped := s.skipped + {if s.sends != [] then |s.sends| - 1 else 0}), now, t)
  }

  lemma FailsAt(cfg: Config, s: State, now: real)
    requires s.index < |cfg.waypoints| && !s.finished && s.waitingUntil.None?
    ensures Failed(cfg, s, now, HandleFailure(cfg, s, now, s.goalSerial))
  {
    if !cfg.stopOnFailure {
      LeavesBehind(cfg, s.(transitionInProgress := false, goalHandle := None, goalResultFuture := None,
                           skipped := s.skipped + {if s.sends != [] then |s.sends| - 1 else 0}),
                   now, cfg.IsLast(s.index));
    }
  }

  lemma FailedOutcome(cfg: Config, s: State, e: Event, now: real, t: State)
    requires s.index < |cfg.waypoints| && Fails(s, e) && !s.transitionInProgress
    requires Failed(cfg, Taken(s, e), now, t)
    ensures Outcome(cfg, s, e, now, t)
  {
  }

  lemma ArrivedOutcome(cfg: Config, s: State, e: Event, now: real, t: State)
    requires s.index < |cfg.waypoints| && Arrives(s, e)
    requires Arrived(cfg, if e.Result? then Taken(s, e) else PublishSafetyZero(Taken(s, e)), now, t)
    ensures Outcome(cfg, s, e, now, t)
  {
  }

  lemma ResponseOutcome(cfg: Config, s: State, serial: nat, outcome: ResponseOutcome, now: real)
    requires s.index < |cfg.waypoints|
    requires !s.finished ==> serial == s.goalSerial && s.waitingUntil.None? && !s.transitionInProgress
    ensures Outcome(cfg, s, Event.Response(serial, outcome), now,
                    Handle(cfg, s, now, Event.Response(serial, outcome)))
  {
    var e := Event.Response(serial, outcome);
    if !s.finished && outcome != Accepted {
      FailsAt(cfg, Taken(s, e), now);
      FailedOutcome(cfg, s, e, now, Handle(cfg, s, now, e));
    }
  }

  lemma CurrentResultOutcome(cfg: Config, s: State, outcome: ResultOutcome, now: real)
    requires s.index < |cfg.waypoints| && !s.finished && s.waitingUntil.None? && !s.transitionInProgress
    ensures var e := Event.Result(s.goalSerial, outcome); Outcome(cfg, s, e, now, Handle(cfg, s, now, e))
  {
    var e := Event.Result(s.goalSerial, outcome);
    var t := Taken(s, e);
    if outcome == Succeeded {
      ArrivesAt(cfg, t, now, cfg.Dwell(t.index), cfg.IsLast(t.index));
      ArrivedOutcome(cfg, s, e, now, FinishArrival(cfg, t, now, cfg.Dwell(t.index), cfg.IsLast(t.index)));
    } else {
      FailsAt(cfg, t, now);
      FailedOutcome(cfg, s, e, now, HandleFailure(cfg, t, now, t.goalSerial));
    }
  }

  lemma LateResultOutcome(cfg: Config, s: State, serial: nat, outcome: ResultOutcome, now: real)
    requires s.index < |cfg.waypoints| && (s.finished || serial != s.goalSerial)
    ensures var e := Event.Result(serial, outcome); Outcome(cfg, s, e, now, Handle(cfg, s, now, e))
  {
  }

  lemma CancellationOutcome(cfg: Config, s: State, e: Event, now: real)
    requires s.index < |cfg.waypoints| && (e.CancelReply? || e.CanceledResult?) && e.WellFormed()
    requires !s.finished && s.waitingUntil.None? && s.transitionInProgress && s.goalResultFuture.Some?
    requires e.callback.waitSeconds == cfg.Dwell(s.index) && e.callback.isLast == cfg.IsLast(s.index)
    ensures Outcome(cfg, s, e, now, Handle(cfg, s, now, e))
  {
    if Arrives(s, e) {
      var t := PublishSafetyZero(Taken(s, e));
      ArrivesAt(cfg, t, now, e.callback.waitSeconds, e.callback.isLast);
      ArrivedOutcome(cfg, s, e, now, FinishArrival(cfg, t, now, e.callback.waitSeconds, e.callback.isLast));
    }
  }

  lemma PausingTickOutcome(cfg: Config, s: State, position: Option<(real, real)>, now: real)
    requires s.index < |cfg.waypoints| && s.holdingStop && s.waitingUntil.Some? && !s.finished
    requires !s.transitionInProgress && s.goalHandle.None? && s.waitingFinishesRoute == cfg.IsLast(s.index)
    ensures Outcome(cfg, s, Timer(position), now, OnTimer(cfg, s, now, position))
  {
    var r := PublishSafetyZero(s).(holdingStop := false, waitingUntil := None);
    if s.waitingUntil.value <= now {
      LeavesBehind(cfg, r, now, s.waitingFinishesRoute);
    }
  }

  lemma EarlyByThreshold(cfg: Config, index: nat, position: (real, real))
    requires index < |cfg.waypoints|
    ensures NearEnough(cfg, index, Square(cfg.waypoints[index], position))
       <==> WithinThreshold(cfg, index, position) && (cfg.IsLast(index) ==> NeedsPause(cfg.waypoints[index]))
  {
  }

  lemma DrivingTickOutcome(cfg: Config, s: State, position: Option<(real, real)>, now: real)
    requires s.index < |cfg.waypoints| && !s.holdingStop && s.waitingUntil.None?
    requires !s.finished && s.goalHandle.Some? && !s.transitionInProgress ==> s.goalHandle == Some(s.goalSerial)
    ensures Outcome(cfg, s, Timer(position), now, OnTimer(cfg, s, now, position))
  {
    if position.Some? {
      EarlyByThreshold(cfg, s.index, position.value);
    }
  }

  /** A pending answer that is not out of date belongs to the goal that is out. */
  lemma CurrentIsLive(cfg: Config, start: nat, s: State, clock: real, c: Callback)
    requires Inv(cfg, start, s, clock) && c in s.pending && (c.GoalResponse? || c.GoalResult?)
    ensures !s.finished && (c.GoalResponse? || c.serial == s.goalSerial) ==>
      c.serial == s.goalSerial && s.waitingUntil.None? && !s.transitionInProgress
  {
    if !s.finished && Live(cfg, s) != Some(c) {
      TakeStale(cfg, start, s, clock, clock, c);
    }
  }

  /** What an event comes to in every reachable state, said without the callbacks that bring it about. */
  lemma OutcomeOfEvent(cfg: Config, start: nat, s: State, clock: real, e: Event, now: real)
    requires Inv(cfg, start, s, clock) && Enabled(s, clock, e, now)
    ensures Outcome(cfg, s, e, now, Handle(cfg, s, now, e))
  {
    match e {
      case Response(serial, outcome) =>
        CurrentIsLive(cfg, start, s, clock, GoalResponse(serial));
        ResponseOutcome(cfg, s, serial, outcome, now);
      case Result(serial, outcome) =>
        CurrentIsLive(cfg, start, s, clock, GoalResult(serial));
        if s.finished || serial != s.goalSerial {
          LateResultOutcome(cfg, s, serial, outcome, now);
        } else {
          CurrentResultOutcome(cfg, s, outcome, now);
        }
      case CancelReply(c, _) =>
        CancellationIsLive(cfg, start, s, clock, c);
        CancellationOutcome(cfg, s, e, now);
      case CanceledResult(c, _) =>
        CancellationIsLive(cfg, start, s, clock, c);
        CancellationOutcome(cfg, s, e, now);
      case Timer(position) =>
        if s.waitingUntil.Some? {
          PausingTickOutcome(cfg, s, position, now);
        } else {
          DrivingTickOutcome(cfg, s, position, now);
        }
      case GoalEnds(_) =>
    }
  }

  /**
    When a tick cancels the running goal, by the real distance d to the waypoint: at a pause within the
    precise threshold, elsewhere within the waypoint's own positive threshold or else the default one, and
    never on the way to a last waypoint without a pause. It then cancels that goal, once, and sends nothing.
  */
  lemma TickCancelsExactly(cfg: Config, start: nat, s: State, clock: real, x: real, y: real, d: real, now: real)
    requires Inv(cfg, start, s, clock) && clock <= now
    requires d >= 0.0
    requires var w := cfg.waypoints[s.index]; d * d == (w.x - x) * (w.x - x) + (w.y - y) * (w.y - y)
    ensures var t, w := OnTimer(cfg, s, now, Some((x, y))), cfg.waypoints[s.index];
      var active := !s.finished && s.waitingUntil.None? && !s.transitionInProgress && s.goalHandle.Some?;
      && (t.cancels != s.cancels <==>
            && active
            && if w.stop || w.waitTime > 0.0 then d <= cfg.preciseThreshold
               else s.index + 1 < |cfg.waypoints|
                    && d <= if w.threshold > 0.0 then w.threshold else cfg.defaultThreshold)
      && (t.cancels != s.cancels ==>
            && s.goalHandle == Some(s.goalSerial) && t.cancels == s.cancels + [s.goalSerial]
            && t.transitionInProgress && t.goalSerial == s.goalSerial + 1 && t.sends == s.sends)
  {
    var w := cfg.waypoints[s.index];
    OutcomeOfEvent(cfg, start, s, clock, Timer(Some((x, y))), now);
    assert s.cancels + [s.goalSerial] != s.cancels;
    NearEnoughIsDistance(cfg, s.index, d);
    assert Square(w, (x, y)) == d * d;
  }

  lemma NearEnoughIsDistance(cfg: Config, i: nat, d: real)
    requires cfg.Valid() && i < |cfg.waypoints| && d >= 0.0
    ensures var w := cfg.waypoints[i];
      NearEnough(cfg, i, d * d) <==>
        if w.stop || w.waitTime > 0.0 then d <= cfg.preciseThreshold
        else i + 1 < |cfg.waypoints| && d <= if w.threshold > 0.0 then w.threshold else cfg.defaultThreshold
  {
    var w := cfg.waypoints[i];
    SquareOrder(cfg.preciseThreshold, d);
    SquareOrder(cfg.defaultThreshold, d);
    if w.threshold > 0.0 {
      SquareOrder(w.threshold, d);
    }
  }

  // ----- Why a route ends --------------------------------------------------------------

  function LastSend(s: State): nat {
    if s.sends != [] then |s.sends| - 1 else 0
  }

  predicate DealtWith(s: State, k: nat) {
    k in s.arrivedAt || k in s.skipped
  }

  /** Finished although the waypoint last sent was neither arrived at nor skipped. */
  predicate EndedEarly(s: State) {
    s.finished && !DealtWith(s, LastSend(s))
  }

  /** A route ends with every waypoint dealt with, or early, and then failures are fatal. */
  ghost predicate Ledger(cfg: Config, start: nat, s: State) {
    && (s.finished && !EndedEarly(s) ==> !cfg.loop && start + |s.sends| == |cfg.waypoints|)
    && (EndedEarly(s) ==> cfg.stopOnFailure)
  }

  lemma LastOnTheList(cfg: Config, start: nat, s: State, clock: real)
    requires Inv(cfg, start, s, clock) && !cfg.loop && s.index + 1 == |cfg.waypoints|
    ensures start + |s.sends| == |cfg.waypoints|
  {
    SmallRemainder(start + |s.sends| - 1, |cfg.waypoints|);
  }

  lemma StepKeepsLedger(cfg: Config, start: nat, s: State, clock: real, e: Event, now: real)
    requires Inv(cfg, start, s, clock) && Enabled(s, clock, e, now) && Ledger(cfg, start, s)
    ensures var t := Handle(cfg, s, now, e);
      Ledger(cfg, start, t) && (EndedEarly(t) <==> EndedEarly(s) || (Fails(s, e) && cfg.stopOnFailure))
  {
    OutcomeOfEvent(cfg, start, s, clock, e, now);
    if !cfg.loop && s.index + 1 == |cfg.waypoints| {
      LastOnTheList(cfg, start, s, clock);
    }
  }

  function FailedHere(s: State, e: Event): set<nat> {
    if Fails(s, e) then {LastSend(s)} else {}
  }

  function ArrivedHere(s: State, e: Event, now: real): map<nat, real> {
    if Arrives(s, e) then map[LastSend(s) := now] else map[]
  }

  /** The sends whose goals failed along the run. */
  ghost function FailedSends(cfg: Config, w: World, steps: seq<Step>): set<nat>
    requires LegalRun(cfg, w, steps)
    decreases |steps|
  {
    if steps == [] then {}
    else
      FailedHere(w.f, steps[0].0) + FailedSends(cfg, Next(cfg, w, steps[0].0, steps[0].1), steps[1..])
  }

  /** The sends whose waypoints were arrived at along the run, and when. */
  ghost function Arrivals(cfg: Config, w: World, steps: seq<Step>): map<nat, real>
    requires LegalRun(cfg, w, steps)
    decreases |steps|
  {
    if steps == [] then map[]
    else
      ArrivedHere(w.f, steps[0].0, steps[0].1) + Arrivals(cfg, Next(cfg, w, steps[0].0, steps[0].1), steps[1..])
  }

  /** What is recorded from s to t: the arrivals, the failures as skips, or the early end by one of them. */
  predicate Recorded(cfg: Config, s: State, arrivals: map<nat, real>, failed: set<nat>, t: State) {
    && t.arrivedAt == s.arrivedAt + arrivals
    && t.skipped == s.skipped + (if cfg.stopOnFailure then {} else failed)
    && (EndedEarly(t) <==> EndedEarly(s) || (cfg.stopOnFailure && failed != {}))
  }

  lemma RecordedTwice(cfg: Config, s: State, a: map<nat, real>, f: set<nat>, m: State,
      b: map<nat, real>, g: set<nat>, t: State)
    requires Recorded(cfg, s, a, f, m) && Recorded(cfg, m, b, g, t)
    ensures Recorded(cfg, s, a + b, f + g, t)
  {
    assert s.arrivedAt + a + b == s.arrivedAt + (a + b);
  }

  lemma RecordHere(cfg: Config, s: State, e: Event, now: real, t: State)
    requires s.index < |cfg.waypoints| && s.sends != [] && RecordAfter(cfg, s, e, now, t)
    ensures t.arrivedAt == s.arrivedAt + ArrivedHere(s, e, now)
    ensures t.skipped == s.skipped + (if cfg.stopOnFailure then {} else FailedHere(s, e))
  {
  }

  lemma RecordOfEvent(cfg: Config, start: nat, s: State, clock: real, e: Event, now: real)
    requires Inv(cfg, start, s, clock) && Enabled(s, clock, e, now)
    ensures var t := Handle(cfg, s, now, e);
      && t.arrivedAt == s.arrivedAt + ArrivedHere(s, e, now)
      && t.skipped == s.skipped + (if cfg.stopOnFailure then {} else FailedHere(s, e))
  {
    OutcomeOfEvent(cfg, start, s, clock, e, now);
    RecordHere(cfg, s, e, now, Handle(cfg, s, now, e));
  }

  lemma StepRecorded(cfg: Config, start: nat, s: State, clock: real, e: Event, now: real)
    requires Inv(cfg, start, s, clock) && Enabled(s, clock, e, now) && Ledger(cfg, start, s)
    ensures Recorded(cfg, s, ArrivedHere(s, e, now), FailedHere(s, e), Handle(cfg, s, now, e))
  {
    StepKeepsLedger(cfg, start, s, clock, e, now);
    RecordOfEvent(cfg, start, s, clock, e, now);
  }

  ghost predicate Good(cfg: Config, start: nat, w: World) {
    WorldInv(cfg, start, w) && Ledger(cfg, start, w.f)
  }

  lemma StepKeepsGood(cfg: Config, start: nat, w: World, e: Event, now: real)
    requires Good(cfg, start, w) && Possible(w, e, now)
    ensures Good(cfg, start, Next(cfg, w, e, now))
    ensures Recorded(cfg, w.f, ArrivedHere(w.f, e, now), FailedHere(w.f, e), Next(cfg, w, e, now).f)
  {
    StepKeepsWorldInv(cfg, start, w, e, now);
    StepKeepsLedger(cfg, start, w.f, w.clock, e, now);
    StepRecorded(cfg, start, w.f, w.clock, e, now);
  }

  lemma {:induction false} HistoryFrom(cfg: Config, start: nat, w: World, steps: seq<Step>)
    requires Good(cfg, start, w) && LegalRun(cfg, w, steps)
    ensures Good(cfg, start, Exec(cfg, w, steps))
    ensures Recorded(cfg, w.f, Arrivals(cfg, w, steps), FailedSends(cfg, w, steps), Exec(cfg, w, steps).f)
    decreases |steps|
  {
    if steps != [] {
      var (e, now) := steps[0];
      var next := Next(cfg, w, e, now);
      StepKeepsGood(cfg, start, w, e, now);
      HistoryFrom(cfg, start, next, steps[1..]);
      RecordedTwice(cfg, w.f, ArrivedHere(w.f, e, now), FailedHere(w.f, e), next.f,
                    Arrivals(cfg, next, steps[1..]), FailedSends(cfg, next, steps[1..]), Exec(cfg, w, steps).f);
    }
  }

  /**
    After every run: what is recorded is what happened, waypoint by waypoint; and the route ended early
    exactly when failures are fatal and a failure of the current goal was delivered.
  */
  lemma RecordsAreHistory(cfg: Config, start: nat, now: real, steps: seq<Step>)
    requires cfg.Valid() && start < |cfg.waypoints|
    requires LegalRun(cfg, Begin(cfg, start, now), steps)
    ensures var w := Begin(cfg, start, now);
      var s := Exec(cfg, w, steps).f;
      && s.arrivedAt == Arrivals(cfg, w, steps)
      && s.skipped == (if cfg.stopOnFailure then {} else FailedSends(cfg, w, steps))
      && (EndedEarly(s) <==> cfg.stopOnFailure && FailedSends(cfg, w, steps) != {})
  {
    BeginEstablishes(cfg, start, now);
    HistoryFrom(cfg, start, Begin(cfg, start, now), steps);
  }

  lemma FinishedState(cfg: Config, start: nat, w: World)
    requires Good(cfg, start, w)
    ensures var s := w.f; s.sends != []
    ensures var s := w.f; s.finished && !EndedEarly(s) <==>
      && !cfg.loop && |s.sends| == |cfg.waypoints| - start
      && DealtWith(s, |s.sends| - 1) && s.waitingUntil.None?
    ensures var s := w.f; s.finished && !EndedEarly(s) ==> forall k: nat :: k < |s.sends| ==> DealtWith(s, k)
  {
    var s := w.f;
    forall k: nat | k < |s.sends| - 1
      ensures DealtWith(s, k)
    {
      assert Left(cfg, s, k);
    }
  }

  /**
    After every run a route has finished in its own time exactly when it does not loop, every waypoint from
    the start to the end of the list was sent, and the last one is dealt with and its pause over; and then
    all of them are dealt with.
  */
  lemma FinishedExactly(cfg: Config, start: nat, now: real, steps: seq<Step>)
    requires cfg.Valid() && start < |cfg.waypoints|
    requires LegalRun(cfg, Begin(cfg, start, now), steps)
    ensures var s := Exec(cfg, Begin(cfg, start, now), steps).f;
      && s.sends != []
      && (s.finished && !EndedEarly(s) <==>
            && !cfg.loop && |s.sends| == |cfg.waypoints| - start
            && DealtWith(s, |s.sends| - 1) && s.waitingUntil.None?)
      && (s.finished && !EndedEarly(s) ==> forall k: nat :: k < |s.sends| ==> DealtWith(s, k))
  {
    BeginEstablishes(cfg, start, now);
    HistoryFrom(cfg, start, Begin(cfg, start, now), steps);
    FinishedState(cfg, start, Exec(cfg, Begin(cfg, start, now), steps));
  }

  /** When failures are not fatal a finished route dealt with every waypoint, and a looping route never finishes. */
  lemma FailuresDoNotEnd(cfg: Config, start: nat, now: real, steps: seq<Step>)
    requires cfg.Valid() && start < |cfg.waypoints| && !cfg.stopOnFailure
    requires LegalRun(cfg, Begin(cfg, start, now), steps)
    ensures var s := Exec(cfg, Begin(cfg, start, now), steps).f;
      s.finished ==>
        && !cfg.loop && |s.sends| == |cfg.waypoints| - start
        && forall k: nat :: k < |s.sends| ==> k in s.arrivedAt || k in s.skipped
  {
    FinishedExactly(cfg, start, now, steps);
    RecordsAreHistory(cfg, start, now, steps);
    var s := Exec(cfg, Begin(cfg, start, now), steps).f;
    assert forall k: nat :: DealtWith(s, k) <==> k in s.arrivedAt || k in s.skipped;
  }
}
