/** Every callback, timer tick and failure keeps the follower's invariant. */
module FollowerInvariant {
  import opened Wrappers
  import opened FollowerProtocol

  /** The waypoint last sent has been dealt with and the next goal may go out at `now`. */
  ghost predicate Leaving(cfg: Config, start: nat, s: State, now: real) {
    && cfg.Valid() && start < |cfg.waypoints|
    && !s.indexError && s.index < |cfg.waypoints|
    && Route(cfg, start, s, now)
    && (forall i :: 0 <= i < |s.stops| ==> !s.stops[i])
    && !s.finished && !s.transitionInProgress && !s.holdingStop
    && s.goalHandle.None? && s.goalResultFuture.None? && s.waitingUntil.None?
    && OnlyStale(s, s.pending)
    && var last := |s.sends| - 1;
    && (forall k: nat :: k <= last ==> Left(cfg, s, k))
    && (forall k :: k in s.arrivedAt || k in s.skipped ==> k <= last)
    && (last in s.arrivedAt ==> s.arrivedAt[last] + Max0(cfg.Dwell(s.index)) <= now)
  }

  lemma {:induction false} MultipleIsLarge(n: nat, d: int)
    requires 0 < n && d != 0
    ensures if d > 0 then n * d >= n else n * d + n <= 0
    decreases if d > 0 then d else -d
  {
    if d > 1 {
      MultipleIsLarge(n, d - 1);
      assert n * d == n * (d - 1) + n;
    } else if d < -1 {
      MultipleIsLarge(n, d + 1);
      assert n * d == n * (d + 1) - n;
    }
  }

  /** Counting around the list: the successor's remainder is the next index, or 0 after the last one. */
  lemma NextIndex(n: nat, m: nat)
    requires 0 < n
    ensures (m + 1) % n == if m % n + 1 < n then m % n + 1 else 0
  {
    var q, i := m / n, m % n;
    var q', i' := (m + 1) / n, (m + 1) % n;
    assert n * q + i + 1 == n * q' + i';
    var d := if i + 1 < n then q' - q else q' - q - 1;
    assert n * d == (if i + 1 < n then i + 1 else 0) - i';
    if d != 0 {
      MultipleIsLarge(n, d);
    }
  }

  lemma SmallRemainder(i: nat, n: nat)
    requires i < n
    ensures i % n == i
  {
  }

  /** From a state that may leave, sending the goal at the given next index re-establishes the invariant. */
  lemma SendKeepsInv(cfg: Config, start: nat, s: State, next: nat, now: real)
    requires Leaving(cfg, start, s, now)
    requires next < |cfg.waypoints| && next == (start + |s.sends|) % |cfg.waypoints|
    requires !cfg.loop ==> start + |s.sends| < |cfg.waypoints|
    ensures Inv(cfg, start, SendCurrentGoal(cfg, s.(index := next, goalHandle := None), now), now)
  {
    var t := SendCurrentGoal(cfg, s.(index := next, goalHandle := None), now);
    var c := GoalResponse(t.goalSerial);
    assert c !in s.pending;
    assert t.pending - multiset{c} == s.pending;
    assert forall k :: 0 <= k < |s.sends| ==> t.sends[k] == s.sends[k];
    forall k: nat | k < |t.sends| - 1
      ensures Left(cfg, t, k)
    {
      assert Left(cfg, s, k);
    }
  }

  lemma AdvanceKeepsInv(cfg: Config, start: nat, s: State, now: real)
    requires Leaving(cfg, start, s, now) && !cfg.IsLast(s.index)
    ensures Inv(cfg, start, Advance(cfg, s, now), now)
  {
    var n, last := |cfg.waypoints|, start + |s.sends| - 1;
    assert s.index == last % n;
    NextIndex(n, last);
    if !cfg.loop {
      SmallRemainder(last, n);
    }
    SendKeepsInv(cfg, start, s, s.index + 1, now);
  }

  lemma CompleteKeepsInv(cfg: Config, start: nat, s: State, now: real)
    requires Leaving(cfg, start, s, now) && cfg.IsLast(s.index)
    ensures Inv(cfg, start, CompleteOrLoop(cfg, s, now), now)
  {
    if cfg.loop {
      NextIndex(|cfg.waypoints|, start + |s.sends| - 1);
      SendKeepsInv(cfg, start, s, 0, now);
    } else {
      var t := CompleteOrLoop(cfg, s, now);
      forall k: nat | k < |t.sends| - 1
        ensures Left(cfg, t, k)
      {
        assert Left(cfg, s, k);
      }
    }
  }

  lemma LeaveKeepsInv(cfg: Config, start: nat, s: State, now: real)
    requires Leaving(cfg, start, s, now)
    ensures Inv(cfg, start, if cfg.IsLast(s.index) then CompleteOrLoop(cfg, s, now) else Advance(cfg, s, now), now)
  {
    if cfg.IsLast(s.index) {
      CompleteKeepsInv(cfg, start, s, now);
    } else {
      AdvanceKeepsInv(cfg, start, s, now);
    }
  }

  /** The unfinished, not dwelling part of the invariant, with the live callback taken out of pending. */
  ghost predicate Handling(cfg: Config, start: nat, s: State, now: real) {
    && cfg.Valid() && start < |cfg.waypoints|
    && !s.indexError && s.index < |cfg.waypoints|
    && Route(cfg, start, s, now)
    && Dwells(cfg, s, now)
    && (forall i :: 0 <= i < |s.stops| ==> !s.stops[i])
    && !s.finished && !s.holdingStop && s.waitingUntil.None?
    && OnlyStale(s, s.pending)
  }

  /** The waypoint last sent has been reached, and nothing has been done about it yet. */
  ghost predicate Arrived(cfg: Config, start: nat, s: State, now: real) {
    && cfg.Valid() && start < |cfg.waypoints|
    && !s.indexError && s.index < |cfg.waypoints|
    && Route(cfg, start, s, now)
    && (forall i :: 0 <= i < |s.stops| ==> !s.stops[i])
    && !s.finished && !s.transitionInProgress && !s.holdingStop
    && s.goalHandle.None? && s.goalResultFuture.None? && s.waitingUntil.None?
    && OnlyStale(s, s.pending)
    && var last := |s.sends| - 1;
    && (forall k: nat :: k < last ==> Left(cfg, s, k))
    && (forall k :: k in s.arrivedAt || k in s.skipped ==> k <= last)
    && last in s.arrivedAt && last !in s.skipped && s.arrivedAt[last] == now
  }

  lemma DwellKeepsInv(cfg: Config, start: nat, s: State, now: real)
    requires Arrived(cfg, start, s, now) && cfg.Dwell(s.index) > 0.0
    ensures Inv(cfg, start, BeginDwell(s, now, cfg.Dwell(s.index), cfg.IsLast(s.index)), now)
  {
    var t := BeginDwell(s, now, cfg.Dwell(s.index), cfg.IsLast(s.index));
    forall k: nat | k < |t.sends| - 1
      ensures Left(cfg, t, k)
    {
      assert Left(cfg, s, k);
    }
    assert t.sends[|t.sends| - 1].index == t.index;
  }

  lemma PassingKeepsInv(cfg: Config, start: nat, s: State, now: real)
    requires Arrived(cfg, start, s, now) && cfg.Dwell(s.index) <= 0.0
    ensures Inv(cfg, start, if cfg.IsLast(s.index) then CompleteOrLoop(cfg, s, now) else Advance(cfg, s, now), now)
  {
    var last := |s.sends| - 1;
    assert s.sends[last].index == s.index;
    assert Left(cfg, s, last);
    LeaveKeepsInv(cfg, start, s, now);
  }

  lemma ArrivalRecorded(cfg: Config, start: nat, s: State, now: real)
    requires Handling(cfg, start, s, now)
    ensures Arrived(cfg, start, s.(transitionInProgress := false, goalHandle := None, goalResultFuture := None,
                                   arrivedAt := s.arrivedAt[|s.sends| - 1 := now]), now)
  {
    var last := |s.sends| - 1;
    var r := s.(transitionInProgress := false, goalHandle := None, goalResultFuture := None,
                arrivedAt := s.arrivedAt[last := now]);
    forall k: nat | k < last
      ensures Left(cfg, r, k)
    {
      assert Left(cfg, s, k);
    }
  }

  lemma FinishArrivalKeepsInv(cfg: Config, start: nat, s: State, now: real, waitSeconds: real, isLast: bool)
    requires Handling(cfg, start, s, now)
    requires waitSeconds == cfg.Dwell(s.index) && isLast == cfg.IsLast(s.index)
    ensures Inv(cfg, start, FinishArrival(cfg, s, now, waitSeconds, isLast), now)
  {
    ArrivalRecorded(cfg, start, s, now);
    var r := s.(transitionInProgress := false, goalHandle := None, goalResultFuture := None,
                arrivedAt := s.arrivedAt[|s.sends| - 1 := now]);
    if waitSeconds > 0.0 {
      DwellKeepsInv(cfg, start, r, now);
    } else {
      PassingKeepsInv(cfg, start, r, now);
    }
  }

  lemma HandleFailureKeepsInv(cfg: Config, start: nat, s: State, now: real)
    requires Handling(cfg, start, s, now) && !s.transitionInProgress
    ensures Inv(cfg, start, HandleFailure(cfg, s, now, s.goalSerial), now)
  {
    var last := |s.sends| - 1;
    if cfg.stopOnFailure {
      var t := HandleFailure(cfg, s, now, s.goalSerial);
      forall k: nat | k < |t.sends| - 1
        ensures Left(cfg, t, k)
      {
        assert Left(cfg, s, k);
      }
    } else {
      var r := s.(transitionInProgress := false, goalHandle := None, goalResultFuture := None,
                  skipped := s.skipped + {last});
      forall k: nat | k <= last
        ensures Left(cfg, r, k)
      {
        if k < last {
          assert Left(cfg, s, k);
        }
      }
      LeaveKeepsInv(cfg, start, r, now);
    }
  }

  lemma LaterClock(cfg: Config, start: nat, s: State, clock: real, now: real)
    requires Inv(cfg, start, s, clock) && clock <= now
    ensures Inv(cfg, start, s, now)
  {
  }

  /** Delivering the live callback of a state that is neither finished nor dwelling leaves only stale ones. */
  lemma TakeLive(cfg: Config, start: nat, s: State, clock: real, now: real, e: Event)
    requires Inv(cfg, start, s, clock) && clock <= now && !s.finished
    requires e.Delivers().Some? && Live(cfg, s) == e.Delivers()
    ensures Handling(cfg, start, Taken(s, e), now)
  {
    var t := Taken(s, e);
    forall k: nat | k < |t.sends| - 1
      ensures Left(cfg, t, k)
    {
      assert Left(cfg, s, k);
    }
  }

  lemma StaleKeepsShape(cfg: Config, s: State, c: Callback)
    requires s.index < |cfg.waypoints| && Shape(cfg, s) && c in s.pending && Live(cfg, s) != Some(c)
    ensures var t := s.(pending := s.pending - multiset{c});
      Stale(s, c) && Live(cfg, t) == Live(cfg, s) && Shape(cfg, t)
  {
    var t := s.(pending := s.pending - multiset{c});
    var live := Live(cfg, s);
    if live.Some? {
      assert c in s.pending - multiset{live.value};
      assert t.pending - multiset{live.value} == s.pending - multiset{live.value} - multiset{c};
    }
  }

  /** Dropping one stale callback changes nothing else. */
  lemma TakeStale(cfg: Config, start: nat, s: State, clock: real, now: real, c: Callback)
    requires Inv(cfg, start, s, clock) && clock <= now && c in s.pending
    requires s.finished || Live(cfg, s) != Some(c)
    ensures Inv(cfg, start, s.(pending := s.pending - multiset{c}), now)
    ensures !s.finished ==> Stale(s, c) && Live(cfg, s.(pending := s.pending - multiset{c})) == Live(cfg, s)
  {
    var t := s.(pending := s.pending - multiset{c});
    forall k: nat | k < |t.sends| - 1
      ensures Left(cfg, t, k)
    {
      assert Left(cfg, s, k);
    }
    if !s.finished {
      StaleKeepsShape(cfg, s, c);
    }
  }

  lemma AcceptedKeepsInv(cfg: Config, start: nat, s: State, now: real)
    requires Handling(cfg, start, s, now) && !s.transitionInProgress
    ensures Inv(cfg, start, OnGoalResponse(cfg, s, now, s.goalSerial, Accepted), now)
  {
    var t := OnGoalResponse(cfg, s, now, s.goalSerial, Accepted);
    assert t.pending - multiset{GoalResult(s.goalSerial)} == s.pending;
    forall k: nat | k < |t.sends| - 1
      ensures Left(cfg, t, k)
    {
      assert Left(cfg, s, k);
    }
  }

  lemma ResponseKeepsInv(cfg: Config, start: nat, s: State, clock: real, serial: nat, outcome: ResponseOutcome,
      now: real)
    requires Inv(cfg, start, s, clock) && Enabled(s, clock, Response(serial, outcome), now)
    ensures Inv(cfg, start, Handle(cfg, s, now, Response(serial, outcome)), now)
  {
    var e := Response(serial, outcome);
    if s.finished || Live(cfg, s) != Some(GoalResponse(serial)) {
      TakeStale(cfg, start, s, clock, now, GoalResponse(serial));
    } else {
      TakeLive(cfg, start, s, clock, now, e);
      if outcome != Accepted {
        HandleFailureKeepsInv(cfg, start, Taken(s, e), now);
      } else {
        AcceptedKeepsInv(cfg, start, Taken(s, e), now);
      }
    }
  }

  lemma ResultKeepsInv(cfg: Config, start: nat, s: State, clock: real, serial: nat, outcome: ResultOutcome, now: real)
    requires Inv(cfg, start, s, clock) && Enabled(s, clock, Result(serial, outcome), now)
    ensures Inv(cfg, start, Handle(cfg, s, now, Result(serial, outcome)), now)
  {
    var e := Result(serial, outcome);
    if s.finished || Live(cfg, s) != Some(GoalResult(serial)) {
      TakeStale(cfg, start, s, clock, now, GoalResult(serial));
    } else {
      TakeLive(cfg, start, s, clock, now, e);
      var t := Taken(s, e);
      if outcome == Succeeded {
        FinishArrivalKeepsInv(cfg, start, t, now, cfg.Dwell(t.index), cfg.IsLast(t.index));
      } else {
        HandleFailureKeepsInv(cfg, start, t, now);
      }
    }
  }

  lemma ZeroTwistKeepsHandling(cfg: Config, start: nat, s: State, now: real)
    requires Handling(cfg, start, s, now)
    ensures Handling(cfg, start, PublishSafetyZero(s), now)
  {
    var t := PublishSafetyZero(s);
    forall k: nat | k < |t.sends| - 1
      ensures Left(cfg, t, k)
    {
      assert Left(cfg, s, k);
    }
  }

  /** Callbacks of a cancellation are never stale. */
  lemma CancellationIsLive(cfg: Config, start: nat, s: State, clock: real, c: Callback)
    requires Inv(cfg, start, s, clock) && c in s.pending && !c.GoalResult? && !c.GoalResponse?
    ensures !s.finished && Live(cfg, s) == Some(c) && s.transitionInProgress
    ensures s.goalResultFuture == s.goalHandle == Some(c.goal)
    ensures c.waitSeconds == cfg.Dwell(s.index) && c.isLast == cfg.IsLast(s.index)
  {
    if !s.finished && Live(cfg, s) != Some(c) {
      TakeStale(cfg, start, s, clock, clock, c);
    }
  }

  lemma ConfirmedCancelKeepsInv(cfg: Config, start: nat, s: State, goal: nat, now: real)
    requires Handling(cfg, start, s, now) && s.transitionInProgress
    requires s.goalResultFuture == s.goalHandle == Some(goal) && goal < s.goalSerial
    ensures Inv(cfg, start, s.(pending := s.pending + multiset{
              CancelResultFinished(goal, cfg.Dwell(s.index), cfg.IsLast(s.index))}), now)
  {
    var d := CancelResultFinished(goal, cfg.Dwell(s.index), cfg.IsLast(s.index));
    var t := s.(pending := s.pending + multiset{d});
    assert CancelFinished(goal, cfg.Dwell(s.index), cfg.IsLast(s.index)) !in s.pending;
    assert t.pending - multiset{d} == s.pending;
    forall k: nat | k < |t.sends| - 1
      ensures Left(cfg, t, k)
    {
      assert Left(cfg, s, k);
    }
  }

  lemma TransitionKeepsInv(cfg: Config, start: nat, s: State, c: Callback, now: real)
    requires Handling(cfg, start, s, now)
    requires !c.GoalResult? && !c.GoalResponse? && c.waitSeconds == cfg.Dwell(s.index)
    requires c.isLast == cfg.IsLast(s.index)
    ensures Inv(cfg, start, FinishCancelTransition(cfg, s, now, c.waitSeconds, c.isLast), now)
  {
    ZeroTwistKeepsHandling(cfg, start, s, now);
    FinishArrivalKeepsInv(cfg, start, PublishSafetyZero(s), now, c.waitSeconds, c.isLast);
  }

  lemma CancelReplyKeepsInv(cfg: Config, start: nat, s: State, clock: real, c: Callback, outcome: CancelOutcome,
      now: real)
    requires Inv(cfg, start, s, clock) && Enabled(s, clock, CancelReply(c, outcome), now)
    ensures Inv(cfg, start, Handle(cfg, s, now, CancelReply(c, outcome)), now)
  {
    var e := CancelReply(c, outcome);
    CancellationIsLive(cfg, start, s, clock, c);
    TakeLive(cfg, start, s, clock, now, e);
    if outcome == GoalsCanceling {
      ConfirmedCancelKeepsInv(cfg, start, Taken(s, e), c.goal, now);
    } else {
      TransitionKeepsInv(cfg, start, Taken(s, e), c, now);
    }
  }

  lemma CanceledResultKeepsInv(cfg: Config, start: nat, s: State, clock: real, c: Callback, raised: bool, now: real)
    requires Inv(cfg, start, s, clock) && Enabled(s, clock, CanceledResult(c, raised), now)
    ensures Inv(cfg, start, Handle(cfg, s, now, CanceledResult(c, raised)), now)
  {
    var e := CanceledResult(c, raised);
    CancellationIsLive(cfg, start, s, clock, c);
    TakeLive(cfg, start, s, clock, now, e);
    TransitionKeepsInv(cfg, start, Taken(s, e), c, now);
  }

  lemma ZeroTwistKeepsInv(cfg: Config, start: nat, s: State, clock: real)
    requires Inv(cfg, start, s, clock)
    ensures Inv(cfg, start, PublishSafetyZero(s), clock)
  {
    var t := PublishSafetyZero(s);
    forall k: nat | k < |t.sends| - 1
      ensures Left(cfg, t, k)
    {
      assert Left(cfg, s, k);
    }
  }

  /** A dwell that is over: the timer resumes the route. */
  lemma ResumeKeepsInv(cfg: Config, start: nat, s: State, now: real)
    requires Inv(cfg, start, s, now) && !s.finished
    requires s.waitingUntil.Some? && s.waitingUntil.value <= now
    ensures var r := s.(holdingStop := false, waitingUntil := None);
      Inv(cfg, start, if s.waitingFinishesRoute then CompleteOrLoop(cfg, r, now) else Advance(cfg, r, now), now)
  {
    var r := s.(holdingStop := false, waitingUntil := None);
    var last := |s.sends| - 1;
    forall k: nat | k <= last
      ensures Left(cfg, r, k)
    {
      if k < last {
        assert Left(cfg, s, k);
      }
    }
    LeaveKeepsInv(cfg, start, r, now);
  }

  lemma CancelKeepsInv(cfg: Config, start: nat, s: State, now: real)
    requires Inv(cfg, start, s, now) && !s.finished
    requires s.waitingUntil.None? && !s.transitionInProgress && s.goalHandle.Some?
    ensures Inv(cfg, start, ArriveAtWaypoint(cfg, s, now, false), now)
  {
    var t := ArriveAtWaypoint(cfg, s, now, false);
    var c := CancelFinished(s.goalHandle.value, cfg.Dwell(s.index), cfg.IsLast(s.index));
    assert c !in s.pending by {
      assert c in s.pending ==> c in s.pending - multiset{GoalResult(s.goalSerial)};
    }
    assert t.pending - multiset{c} == s.pending;
    forall d | d in s.pending
      ensures Stale(t, d)
    {
      assert d == GoalResult(s.goalSerial) || d in s.pending - multiset{GoalResult(s.goalSerial)};
    }
    forall k: nat | k < |t.sends| - 1
      ensures Left(cfg, t, k)
    {
      assert Left(cfg, s, k);
    }
  }

  lemma TimerKeepsInv(cfg: Config, start: nat, s: State, clock: real, position: Option<(real, real)>, now: real)
    requires Inv(cfg, start, s, clock) && clock <= now
    ensures Inv(cfg, start, OnTimer(cfg, s, now, position), now)
  {
    LaterClock(cfg, start, s, clock, now);
    ZeroTwistKeepsInv(cfg, start, s, now);
    var r := if s.holdingStop then PublishSafetyZero(s) else s;
    if !r.finished && r.waitingUntil.Some? && r.waitingUntil.value <= now {
      ResumeKeepsInv(cfg, start, r, now);
    } else if !r.finished && r.waitingUntil.None? && !r.transitionInProgress && r.goalHandle.Some? {
      CancelKeepsInv(cfg, start, r, now);
    }
  }

  /** The inductive step: any enabled event keeps the invariant. */
  lemma StepKeepsInv(cfg: Config, start: nat, s: State, clock: real, e: Event, now: real)
    requires Inv(cfg, start, s, clock) && Enabled(s, clock, e, now)
    ensures Inv(cfg, start, Handle(cfg, s, now, e), now)
  {
    match e
    case Response(serial, outcome) => ResponseKeepsInv(cfg, start, s, clock, serial, outcome, now);
    case Result(serial, outcome) => ResultKeepsInv(cfg, start, s, clock, serial, outcome, now);
    case CancelReply(c, outcome) => CancelReplyKeepsInv(cfg, start, s, clock, c, outcome, now);
    case CanceledResult(c, raised) => CanceledResultKeepsInv(cfg, start, s, clock, c, raised, now);
    case Timer(position) => TimerKeepsInv(cfg, start, s, clock, position, now);
    case GoalEnds(_) => LaterClock(cfg, start, s, clock, now);
  }

  lemma FirstRoute(cfg: Config, start: nat, s: State, now: real)
    requires start < |cfg.waypoints| && s.index == start && s.goalSerial == 1 && s.sends == [Send(start, 1, now)]
    ensures Route(cfg, start, s, now)
  {
    SmallRemainder(start, |cfg.waypoints|);
  }

  /** Dispatching the first waypoint establishes the invariant. */
  lemma StartEstablishesInv(cfg: Config, start: nat, now: real)
    requires cfg.Valid() && start < |cfg.waypoints|
    ensures Inv(cfg, start, SendCurrentGoal(cfg, Initial(start), now), now)
  {
    var t := SendCurrentGoal(cfg, Initial(start), now);
    FirstRoute(cfg, start, t, now);
    assert t.pending - multiset{GoalResponse(1)} == multiset{};
  }
}
