/** Without looping, the route makes boundedly many steps and ends once its callbacks are delivered. */
module FollowerProgress {
  import opened Wrappers
  import opened FollowerProtocol
  import opened FollowerInvariant
  import opened FollowerRuns

  /** Everything the follower remembers or has put out, short of pending callbacks and repeated zero twists. */
  function Core(s: State): State {
    s.(pending := multiset{}, zeroTwists := 0)
  }

  /** requested > active > cancelling > awaiting the cancelled result > dwelling */
  function Rank(live: Option<Callback>): nat {
    match live
    case Some(GoalResponse(_)) => 4
    case Some(GoalResult(_)) => 3
    case Some(CancelFinished(_, _, _)) => 2
    case Some(CancelResultFinished(_, _, _)) => 1
    case None => 0
  }

  /** Remaining waypoints first, then the phase. */
  function Measure(cfg: Config, s: State): nat
    requires s.index < |cfg.waypoints|
  {
    if s.finished then 0 else 5 * (|cfg.waypoints| - 1 - s.index) + Rank(Live(cfg, s)) + 1
  }

  ghost predicate Idle(cfg: Config, s: State, s': State)
    requires s.index < |cfg.waypoints|
  {
    Core(s') == Core(s) && (!s.finished ==> Live(cfg, s') == Live(cfg, s))
  }

  lemma LeaveProgress(cfg: Config, s: State, now: real, isLast: bool)
    requires !cfg.loop && s.index < |cfg.waypoints| && isLast == cfg.IsLast(s.index)
    requires !s.finished && s.waitingUntil.None? && !s.transitionInProgress
    ensures var t := if isLast then CompleteOrLoop(cfg, s, now) else Advance(cfg, s, now);
      t.index < |cfg.waypoints| && Measure(cfg, t) <= 5 * (|cfg.waypoints| - 1 - s.index)
  {
  }

  lemma ArrivalProgress(cfg: Config, s: State, now: real, waitSeconds: real, isLast: bool)
    requires !cfg.loop && s.index < |cfg.waypoints| && isLast == cfg.IsLast(s.index)
    requires !s.finished && s.waitingUntil.None?
    ensures var t := FinishArrival(cfg, s, now, waitSeconds, isLast);
      t.index < |cfg.waypoints| && Measure(cfg, t) <= 5 * (|cfg.waypoints| - 1 - s.index) + 1
  {
    if waitSeconds <= 0.0 {
      var r := s.(transitionInProgress := false, goalHandle := None, goalResultFuture := None,
                  arrivedAt := s.arrivedAt[if s.sends != [] then |s.sends| - 1 else 0 := now]);
      LeaveProgress(cfg, r, now, isLast);
    }
  }

  lemma FailureProgress(cfg: Config, s: State, now: real)
    requires !cfg.loop && s.index < |cfg.waypoints| && !s.finished && s.waitingUntil.None?
    ensures var t := HandleFailure(cfg, s, now, s.goalSerial);
      t.index < |cfg.waypoints| && Measure(cfg, t) <= 5 * (|cfg.waypoints| - 1 - s.index)
  {
    if !cfg.stopOnFailure {
      var r := s.(transitionInProgress := false, goalHandle := None, goalResultFuture := None,
                  skipped := s.skipped + {if s.sends != [] then |s.sends| - 1 else 0});
      LeaveProgress(cfg, r, now, cfg.IsLast(s.index));
    }
  }

  /** Delivering the live callback always moves the route on. */
  lemma AnswerProgress(cfg: Config, start: nat, s: State, clock: real, e: Event, now: real)
    requires !cfg.loop && Inv(cfg, start, s, clock) && Enabled(s, clock, e, now) && !s.finished
    requires (e.Response? || e.Result?) && Live(cfg, s) == e.Delivers()
    ensures var s' := Handle(cfg, s, now, e);
      s'.index < |cfg.waypoints| && Measure(cfg, s') < Measure(cfg, s)
  {
    TakeLive(cfg, start, s, clock, now, e);
    var t := Taken(s, e);
    if e.Result? && e.result == Succeeded {
      ArrivalProgress(cfg, t, now, cfg.Dwell(t.index), cfg.IsLast(t.index));
    } else if e.Result? || e.response != Accepted {
      FailureProgress(cfg, t, now);
    }
  }

  lemma CancellationProgress(cfg: Config, start: nat, s: State, clock: real, e: Event, now: real)
    requires !cfg.loop && Inv(cfg, start, s, clock) && Enabled(s, clock, e, now) && !s.finished
    requires (e.CancelReply? || e.CanceledResult?) && Live(cfg, s) == e.Delivers()
    ensures var s' := Handle(cfg, s, now, e);
      s'.index < |cfg.waypoints| && Measure(cfg, s') < Measure(cfg, s)
  {
    TakeLive(cfg, start, s, clock, now, e);
    var t, c := Taken(s, e), e.callback;
    if e.CancelReply? && e.reply == GoalsCanceling {
      assert c !in t.pending;
    } else {
      ArrivalProgress(cfg, PublishSafetyZero(t), now, c.waitSeconds, c.isLast);
    }
  }

  lemma DeliveryProgress(cfg: Config, start: nat, s: State, clock: real, e: Event, now: real)
    requires !cfg.loop && Inv(cfg, start, s, clock) && Enabled(s, clock, e, now) && !s.finished
    requires e.Delivers().Some? && Live(cfg, s) == e.Delivers()
    ensures var s' := Handle(cfg, s, now, e);
      s'.index < |cfg.waypoints| && Measure(cfg, s') < Measure(cfg, s)
  {
    if e.Response? || e.Result? {
      AnswerProgress(cfg, start, s, clock, e, now);
    } else {
      CancellationProgress(cfg, start, s, clock, e, now);
    }
  }

  lemma TickProgress(cfg: Config, start: nat, s: State, clock: real, position: Option<(real, real)>, now: real)
    requires !cfg.loop && Inv(cfg, start, s, clock) && clock <= now
    ensures var s' := OnTimer(cfg, s, now, position);
      && s'.index < |cfg.waypoints|
      && (Measure(cfg, s') < Measure(cfg, s) || Idle(cfg, s, s'))
      && (!s.finished && s.waitingUntil.Some? && s.waitingUntil.value <= now ==> Measure(cfg, s') < Measure(cfg, s))
  {
    var r := if s.holdingStop then PublishSafetyZero(s) else s;
    if !r.finished && r.waitingUntil.Some? && r.waitingUntil.value <= now {
      LeaveProgress(cfg, r.(holdingStop := false, waitingUntil := None), now, r.waitingFinishesRoute);
    }
  }

  /** Any enabled event either lowers the measure or changes nothing that matters. */
  lemma StepProgress(cfg: Config, start: nat, s: State, clock: real, e: Event, now: real)
    requires !cfg.loop && Inv(cfg, start, s, clock) && Enabled(s, clock, e, now)
    ensures var s' := Handle(cfg, s, now, e);
      && s'.index < |cfg.waypoints|
      && (Measure(cfg, s') < Measure(cfg, s) || Idle(cfg, s, s'))
  {
    match e {
      case Timer(position) => TickProgress(cfg, start, s, clock, position, now);
      case GoalEnds(_) =>
      case _ =>
        if !s.finished && Live(cfg, s) == e.Delivers() {
          DeliveryProgress(cfg, start, s, clock, e, now);
        } else {
          TakeStale(cfg, start, s, clock, now, e.Delivers().value);
        }
    }
  }

  /** The number of steps of a run that change more than pending callbacks and zero twists. */
  ghost function EffectiveSteps(cfg: Config, w: World, steps: seq<Step>): nat
    requires LegalRun(cfg, w, steps)
    decreases |steps|
  {
    if steps == [] then 0
    else
      var next := Next(cfg, w, steps[0].0, steps[0].1);
      (if Core(next.f) == Core(w.f) then 0 else 1) + EffectiveSteps(cfg, next, steps[1..])
  }

  lemma {:induction false} EffectiveStepsBounded(cfg: Config, start: nat, w: World, steps: seq<Step>)
    requires !cfg.loop && WorldInv(cfg, start, w) && LegalRun(cfg, w, steps)
    ensures var end := Exec(cfg, w, steps);
      end.f.index < |cfg.waypoints| && EffectiveSteps(cfg, w, steps) + Measure(cfg, end.f) <= Measure(cfg, w.f)
    decreases |steps|
  {
    if steps != [] {
      var (e, now) := steps[0];
      StepKeepsWorldInv(cfg, start, w, e, now);
      StepProgress(cfg, start, w.f, w.clock, e, now);
      EffectiveStepsBounded(cfg, start, Next(cfg, w, e, now), steps[1..]);
    }
  }

  /** However long a run is, at most five of its steps per remaining waypoint do anything. */
  lemma BoundedRoute(cfg: Config, start: nat, now: real, steps: seq<Step>)
    requires !cfg.loop && cfg.Valid() && start < |cfg.waypoints|
    requires LegalRun(cfg, Begin(cfg, start, now), steps)
    ensures EffectiveSteps(cfg, Begin(cfg, start, now), steps) <= 5 * (|cfg.waypoints| - start)
  {
    BeginEstablishes(cfg, start, now);
    EffectiveStepsBounded(cfg, start, Begin(cfg, start, now), steps);
  }

  /** Once finished the follower only drains callbacks: no goal, no cancel and no message follows, looping or not. */
  lemma {:induction false} NothingAfterFinish(cfg: Config, start: nat, w: World, steps: seq<Step>)
    requires WorldInv(cfg, start, w) && w.f.finished && LegalRun(cfg, w, steps)
    ensures Exec(cfg, w, steps).f.(pending := w.f.pending) == w.f
    decreases |steps|
  {
    if steps != [] {
      var (e, now) := steps[0];
      StepKeepsWorldInv(cfg, start, w, e, now);
      var next := Next(cfg, w, e, now);
      assert next.f.(pending := w.f.pending) == w.f;
      NothingAfterFinish(cfg, start, next, steps[1..]);
    }
  }

  // ----- Unending runs -----------------------------------------------------------------

  ghost predicate InfiniteRun(cfg: Config, run: nat -> World, ev: nat -> Step) {
    forall i: nat :: Possible(run(i), ev(i).0, ev(i).1) && run(i + 1) == Next(cfg, run(i), ev(i).0, ev(i).1)
  }

  ghost predicate DeliveredFrom(ev: nat -> Step, i: nat, c: Callback) {
    exists j: nat :: j >= i && ev(j).0.Delivers() == Some(c)
  }

  ghost predicate TicksFrom(ev: nat -> Step, i: nat, t: real) {
    exists j: nat :: j >= i && ev(j).0.Timer? && ev(j).1 >= t
  }

  /** Every pending callback is delivered some time later, and the timer keeps ticking as time passes every bound. */
  ghost predicate Fair(run: nat -> World, ev: nat -> Step) {
    && (forall i: nat, c :: c in run(i).f.pending ==> DeliveredFrom(ev, i, c))
    && (forall i: nat, t: real :: TicksFrom(ev, i, t))
  }

  lemma {:induction false} InvariantAt(cfg: Config, start: nat, run: nat -> World, ev: nat -> Step, i: nat)
    requires InfiniteRun(cfg, run, ev) && WorldInv(cfg, start, run(0))
    ensures WorldInv(cfg, start, run(i))
    decreases i
  {
    if i > 0 {
      InvariantAt(cfg, start, run, ev, i - 1);
      assert run(i) == Next(cfg, run(i - 1), ev(i - 1).0, ev(i - 1).1);
      StepKeepsWorldInv(cfg, start, run(i - 1), ev(i - 1).0, ev(i - 1).1);
    }
  }

  /** Between i and j either the measure drops somewhere, or the phase at j is still the one at i. */
  lemma {:induction false} DropOrStay(cfg: Config, start: nat, run: nat -> World, ev: nat -> Step, i: nat, j: nat)
    returns (m: nat)
    requires !cfg.loop && InfiniteRun(cfg, run, ev) && WorldInv(cfg, start, run(0)) && i <= j
    ensures i <= m <= j && run(i).f.index < |cfg.waypoints| && run(m).f.index < |cfg.waypoints|
    ensures Measure(cfg, run(m).f) < Measure(cfg, run(i).f) || (m == j && Idle(cfg, run(i).f, run(j).f))
    decreases j - i
  {
    InvariantAt(cfg, start, run, ev, i);
    if i == j {
      m := j;
    } else {
      StepProgress(cfg, start, run(i).f, run(i).clock, ev(i).0, ev(i).1);
      InvariantAt(cfg, start, run, ev, i + 1);
      assert run(i + 1) == Next(cfg, run(i), ev(i).0, ev(i).1);
      if Measure(cfg, run(i + 1).f) < Measure(cfg, run(i).f) {
        m := i + 1;
      } else {
        m := DropOrStay(cfg, start, run, ev, i + 1, j);
        SameMeasure(cfg, run(i).f, run(i + 1).f);
      }
    }
  }

  lemma SameMeasure(cfg: Config, s: State, s': State)
    requires s.index < |cfg.waypoints| && Idle(cfg, s, s')
    ensures s'.index < |cfg.waypoints| && Measure(cfg, s') == Measure(cfg, s)
  {
    assert Core(s').index == Core(s).index && Core(s').finished == Core(s).finished;
  }

  /** From any unfinished moment of a fair run the measure drops later. */
  lemma LaterDrop(cfg: Config, start: nat, run: nat -> World, ev: nat -> Step, i: nat) returns (m: nat)
    requires !cfg.loop && InfiniteRun(cfg, run, ev) && Fair(run, ev) && WorldInv(cfg, start, run(0))
    requires !run(i).f.finished
    ensures run(i).f.index < |cfg.waypoints| && run(m).f.index < |cfg.waypoints|
    ensures Measure(cfg, run(m).f) < Measure(cfg, run(i).f)
  {
    InvariantAt(cfg, start, run, ev, i);
    var live := Live(cfg, run(i).f);
    var j: nat;
    if live.Some? {
      assert DeliveredFrom(ev, i, live.value);
      j :| j >= i && ev(j).0.Delivers() == live;
    } else {
      assert TicksFrom(ev, i, run(i).f.waitingUntil.value);
      j :| j >= i && ev(j).0.Timer? && ev(j).1 >= run(i).f.waitingUntil.value;
    }
    m := DropOrStay(cfg, start, run, ev, i, j);
    if Measure(cfg, run(m).f) >= Measure(cfg, run(i).f) {
      InvariantAt(cfg, start, run, ev, j);
      StayedPhase(cfg, run(i).f, run(j).f);
      DropAt(cfg, start, run(j), ev(j).0, ev(j).1);
      assert run(j + 1) == Next(cfg, run(j), ev(j).0, ev(j).1);
      m := j + 1;
    }
  }

  lemma StayedPhase(cfg: Config, s: State, s': State)
    requires s.index < |cfg.waypoints| && Idle(cfg, s, s') && !s.finished
    ensures s'.index < |cfg.waypoints| && Measure(cfg, s') == Measure(cfg, s)
    ensures !s'.finished && Live(cfg, s') == Live(cfg, s) && s'.waitingUntil == s.waitingUntil
  {
    SameMeasure(cfg, s, s');
    assert Core(s').waitingUntil == Core(s).waitingUntil;
  }

  lemma DropAt(cfg: Config, start: nat, w: World, e: Event, now: real)
    requires !cfg.loop && WorldInv(cfg, start, w) && Possible(w, e, now) && !w.f.finished
    requires if w.f.waitingUntil.Some? then e.Timer? && w.f.waitingUntil.value <= now
      else e.Delivers() == Live(cfg, w.f)
    ensures var f := Next(cfg, w, e, now).f;
      f.index < |cfg.waypoints| && Measure(cfg, f) < Measure(cfg, w.f)
  {
    if w.f.waitingUntil.Some? {
      TickProgress(cfg, start, w.f, w.clock, e.position, now);
    } else {
      DeliveryProgress(cfg, start, w.f, w.clock, e, now);
    }
  }

  lemma {:induction false} FinishesFrom(cfg: Config, start: nat, run: nat -> World, ev: nat -> Step,
      i: nat) returns (k: nat)
    requires !cfg.loop && InfiniteRun(cfg, run, ev) && Fair(run, ev) && WorldInv(cfg, start, run(0))
    requires run(i).f.index < |cfg.waypoints|
    ensures run(k).f.finished
    decreases Measure(cfg, run(i).f)
  {
    if run(i).f.finished {
      k := i;
    } else {
      var m := LaterDrop(cfg, start, run, ev, i);
      k := FinishesFrom(cfg, start, run, ev, m);
    }
  }

  /** Every fair run of a route that does not loop ends with the follower finished. */
  lemma EventuallyFinishes(cfg: Config, start: nat, now: real, run: nat -> World, ev: nat -> Step)
    requires !cfg.loop && cfg.Valid() && start < |cfg.waypoints|
    requires run(0) == Begin(cfg, start, now) && InfiniteRun(cfg, run, ev) && Fair(run, ev)
    ensures exists k: nat :: run(k).f.finished
  {
    BeginEstablishes(cfg, start, now);
    var k := FinishesFrom(cfg, start, run, ev, 0);
  }
}
