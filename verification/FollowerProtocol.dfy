/**
  The waypoint follower's callbacks as functions from state to state.

  A Nav2 goal is known by the serial it was sent under. Callbacks attached to futures are
  kept in `pending` until they are delivered. Clock readings are parameters. What the node
  sends and publishes is recorded in `sends`, `cancels`, `zeroTwists` and `stops`;
  `arrivedAt` and `skipped` say how the waypoint of each send was left.
*/
module FollowerProtocol {
  import opened Wrappers
  import opened WaypointFormat

  datatype Config = Config(
    waypoints: seq<Waypoint>,
    loop: bool,
    defaultThreshold: real,
    preciseThreshold: real,
    stopDuration: real,
    stopOnFailure: bool)
  {
    ghost predicate Valid() {
      waypoints != [] && defaultThreshold > 0.0 && preciseThreshold > 0.0
    }

    predicate IsLast(index: int) {
      index == |waypoints| - 1
    }

    /** How long to dwell at a waypoint; an explicit wait wins over a plain stop. */
    function Dwell(index: nat): real
      requires index < |waypoints|
    {
      var w := waypoints[index];
      if w.stop && w.waitTime <= 0.0 then stopDuration else w.waitTime
    }
  }

  datatype Callback =
    | GoalResponse(serial: nat)
    | GoalResult(serial: nat)
    | CancelFinished(goal: nat, waitSeconds: real, isLast: bool)
    | CancelResultFinished(goal: nat, waitSeconds: real, isLast: bool)

  datatype ResponseOutcome = RequestError | Rejected | Accepted
  datatype ResultOutcome = ResultError | Succeeded | Aborted | Canceled | OtherStatus
  datatype CancelOutcome = CancelError | NoneCanceling | GoalsCanceling

  datatype Send = Send(index: nat, serial: nat, at: real)

  datatype State = State(
    index: nat,
    goalSerial: nat,
    goalHandle: Option<nat>,
    goalResultFuture: Option<nat>,
    transitionInProgress: bool,
    holdingStop: bool,
    waitingUntil: Option<real>,
    waitingFinishesRoute: bool,
    finished: bool,
    indexError: bool,
    pending: multiset<Callback>,
    sends: seq<Send>,
    cancels: seq<nat>,
    zeroTwists: nat,
    stops: seq<bool>,
    arrivedAt: map<nat, real>,
    skipped: set<nat>)

  function Initial(start: nat): State {
    State(start, 0, None, None, false, false, None, false, false, false,
          multiset{}, [], [], 0, [false], map[], {})
  }

  // ----- The node's private methods ----------------------------------------------------

  function PublishStop(s: State, value: bool): State {
    s.(stops := s.stops + [value])
  }

  function PublishSafetyZero(s: State): State {
    s.(zeroTwists := s.zeroTwists + 1)
  }

  function BeginHoldingStop(s: State): State {
    PublishSafetyZero(PublishStop(s.(holdingStop := true), false))
  }

  /** Reading the waypoint at an index past the end raises; indexError records it. */
  function SendCurrentGoal(cfg: Config, s: State, now: real): State {
    if s.finished || s.waitingUntil.Some? then s
    else if s.index >= |cfg.waypoints| then s.(indexError := true)
    else
      var serial := s.goalSerial + 1;
      s.(goalSerial := serial,
         sends := s.sends + [Send(s.index, serial, now)],
         pending := s.pending + multiset{GoalResponse(serial)})
  }

  function Advance(cfg: Config, s: State, now: real): State {
    SendCurrentGoal(cfg, s.(index := s.index + 1, goalHandle := None), now)
  }

  function CompleteOrLoop(cfg: Config, s: State, now: real): State {
    if cfg.loop then
      SendCurrentGoal(cfg, s.(index := 0, goalHandle := None), now)
    else
      PublishStop(PublishSafetyZero(s.(finished := true)), false)
  }

  function BeginDwell(s: State, now: real, waitSeconds: real, isLast: bool): State {
    BeginHoldingStop(s).(waitingUntil := Some(now + waitSeconds), waitingFinishesRoute := isLast)
  }

  function FinishArrival(cfg: Config, s: State, now: real, waitSeconds: real, isLast: bool): State {
    var s := s.(transitionInProgress := false, goalHandle := None, goalResultFuture := None,
                arrivedAt := s.arrivedAt[if s.sends != [] then |s.sends| - 1 else 0 := now]);
    if s.index >= |cfg.waypoints| then s.(indexError := true)
    else if waitSeconds > 0.0 then
      BeginDwell(s, now, waitSeconds, isLast)
    else if isLast then CompleteOrLoop(cfg, s, now)
    else Advance(cfg, s, now)
  }

  function ArriveAtWaypoint(cfg: Config, s: State, now: real, exactArrival: bool): State {
    if s.index >= |cfg.waypoints| then s.(indexError := true)
    else
      var isLast := cfg.IsLast(s.index);
      var waitSeconds := cfg.Dwell(s.index);
      if !exactArrival && s.goalHandle.Some? then
        var goal := s.goalHandle.value;
        s.(transitionInProgress := true,
           goalSerial := s.goalSerial + 1,
           cancels := s.cancels + [goal],
           pending := s.pending + multiset{CancelFinished(goal, waitSeconds, isLast)})
      else
        FinishArrival(cfg, s, now, waitSeconds, isLast)
  }

  function FinishCancelTransition(cfg: Config, s: State, now: real, waitSeconds: real, isLast: bool): State {
    FinishArrival(cfg, PublishSafetyZero(s), now, waitSeconds, isLast)
  }

  function HandleFailure(cfg: Config, s: State, now: real, serial: nat): State {
    if serial != s.goalSerial || s.finished then s
    else if s.index >= |cfg.waypoints| then s.(indexError := true)
    else if cfg.stopOnFailure then
      PublishStop(PublishSafetyZero(s.(finished := true, holdingStop := false)), false)
    else
      var s := s.(transitionInProgress := false, goalHandle := None, goalResultFuture := None,
                  skipped := s.skipped + {if s.sends != [] then |s.sends| - 1 else 0});
      if cfg.IsLast(s.index) then CompleteOrLoop(cfg, s, now) else Advance(cfg, s, now)
  }

  // ----- The callbacks -----------------------------------------------------------------

  function OnGoalResponse(cfg: Config, s: State, now: real, serial: nat, outcome: ResponseOutcome): State {
    if serial != s.goalSerial || s.finished then s
    else if outcome != Accepted then HandleFailure(cfg, s, now, serial)
    else s.(goalHandle := Some(serial), goalResultFuture := Some(serial),
            pending := s.pending + multiset{GoalResult(serial)})
  }

  function OnGoalResult(cfg: Config, s: State, now: real, serial: nat, outcome: ResultOutcome): State {
    if serial != s.goalSerial || s.finished || s.waitingUntil.Some? then s
    else if outcome == Succeeded then ArriveAtWaypoint(cfg, s, now, true)
    else HandleFailure(cfg, s, now, serial)
  }

  function OnCancelFinished(
    cfg: Config, s: State, now: real, waitSeconds: real, isLast: bool, outcome: CancelOutcome): State
  {
    if outcome == GoalsCanceling && s.goalResultFuture.Some? then
      s.(pending := s.pending + multiset{CancelResultFinished(s.goalResultFuture.value, waitSeconds, isLast)})
    else
      FinishCancelTransition(cfg, s, now, waitSeconds, isLast)
  }

  function OnCancelResultFinished(cfg: Config, s: State, now: real, waitSeconds: real, isLast: bool): State {
    FinishCancelTransition(cfg, s, now, waitSeconds, isLast)
  }

  predicate NeedsPause(w: Waypoint) {
    w.stop || w.waitTime > 0.0
  }

  /** The switching distance of a waypoint: precise where it pauses, else its own or the default. */
  function Threshold(cfg: Config, w: Waypoint): real {
    if NeedsPause(w) then cfg.preciseThreshold
    else if w.threshold > 0.0 then w.threshold else cfg.defaultThreshold
  }

  /** Thresholds are positive, so comparing squared lengths decides hypot(dx, dy) <= threshold. */
  predicate WithinThreshold(cfg: Config, index: nat, position: (real, real))
    requires index < |cfg.waypoints|
  {
    var w := cfg.waypoints[index];
    var dx, dy := w.x - position.0, w.y - position.1;
    var threshold := Threshold(cfg, w);
    dx * dx + dy * dy <= threshold * threshold
  }

  /** A tick while dwelling. */
  function Resume(cfg: Config, s: State, now: real): State
    requires s.waitingUntil.Some?
  {
    if now < s.waitingUntil.value then s
    else
      var s := s.(holdingStop := false, waitingUntil := None);
      if s.waitingFinishesRoute then CompleteOrLoop(cfg, s, now) else Advance(cfg, s, now)
  }

  /** A tick while driving; position is None when the transform lookup fails. */
  function SwitchEarly(cfg: Config, s: State, now: real, position: Option<(real, real)>): State {
    if position.None? then s
    else if s.index >= |cfg.waypoints| then s.(indexError := true)
    else
      var w := cfg.waypoints[s.index];
      if cfg.IsLast(s.index) && !NeedsPause(w) then s
      else if WithinThreshold(cfg, s.index, position.value) then ArriveAtWaypoint(cfg, s, now, false)
      else s
  }

  function OnTimer(cfg: Config, s: State, now: real, position: Option<(real, real)>): State {
    var s := if s.holdingStop then PublishSafetyZero(s) else s;
    if s.finished || s.transitionInProgress || (s.goalHandle.None? && s.waitingUntil.None?) then s
    else if s.waitingUntil.Some? then Resume(cfg, s, now)
    else SwitchEarly(cfg, s, now, position)
  }

  // ----- Events ------------------------------------------------------------------------

  datatype Event =
    | Response(serial: nat, response: ResponseOutcome)
    | Result(serial: nat, result: ResultOutcome)
    | CancelReply(callback: Callback, reply: CancelOutcome)
    | CanceledResult(callback: Callback, raised: bool)
    | Timer(position: Option<(real, real)>)
    | GoalEnds(goal: nat)
  {
    /** The callback this event delivers, if it delivers one. */
    function Delivers(): Option<Callback> {
      match this
      case Response(serial, _) => Some(GoalResponse(serial))
      case Result(serial, _) => Some(GoalResult(serial))
      case CancelReply(c, _) => Some(c)
      case CanceledResult(c, _) => Some(c)
      case _ => None
    }

    predicate WellFormed() {
      && (CancelReply? ==> callback.CancelFinished?)
      && (CanceledResult? ==> callback.CancelResultFinished?)
    }
  }

  function Taken(s: State, e: Event): State {
    match e.Delivers()
    case None => s
    case Some(c) => s.(pending := s.pending - multiset{c})
  }

  /** A goal ending on the server does not touch the follower. */
  function RunCallback(cfg: Config, s: State, now: real, e: Event): State
    requires e.WellFormed()
  {
    match e
    case Response(serial, outcome) => OnGoalResponse(cfg, s, now, serial, outcome)
    case Result(serial, outcome) => OnGoalResult(cfg, s, now, serial, outcome)
    case CancelReply(c, outcome) => OnCancelFinished(cfg, s, now, c.waitSeconds, c.isLast, outcome)
    case CanceledResult(c, _) => OnCancelResultFinished(cfg, s, now, c.waitSeconds, c.isLast)
    case Timer(position) => OnTimer(cfg, s, now, position)
    case GoalEnds(_) => s
  }

  /** The follower's state after one event. */
  function Handle(cfg: Config, s: State, now: real, e: Event): State
    requires e.WellFormed()
  {
    RunCallback(cfg, Taken(s, e), now, e)
  }

  // ----- The invariant -----------------------------------------------------------------

  /** The one callback whose delivery moves the route on; None while dwelling. */
  function Live(cfg: Config, s: State): Option<Callback>
    requires s.index < |cfg.waypoints|
  {
    if s.waitingUntil.Some? then None
    else if s.transitionInProgress then
      var goal := if s.goalHandle.Some? then s.goalHandle.value else 0;
      var c := CancelFinished(goal, cfg.Dwell(s.index), cfg.IsLast(s.index));
      Some(if c in s.pending then c else CancelResultFinished(c.goal, c.waitSeconds, c.isLast))
    else if s.goalHandle.Some? then Some(GoalResult(s.goalSerial))
    else Some(GoalResponse(s.goalSerial))
  }

  predicate Stale(s: State, c: Callback) {
    c.GoalResult? && c.serial < s.goalSerial
  }

  ghost predicate OnlyStale(s: State, pending: multiset<Callback>) {
    forall c :: c in pending ==> Stale(s, c)
  }

  /** Fields and pending callbacks agree about which phase the route is in. */
  ghost predicate Shape(cfg: Config, s: State)
    requires s.index < |cfg.waypoints|
  {
    && s.holdingStop == s.waitingUntil.Some?
    && s.goalHandle == s.goalResultFuture
    && (match Live(cfg, s)
        case None =>
          && !s.transitionInProgress && s.goalHandle.None?
          && s.waitingFinishesRoute == cfg.IsLast(s.index)
          && OnlyStale(s, s.pending)
        case Some(c) =>
          && c in s.pending && OnlyStale(s, s.pending - multiset{c})
          && (c.GoalResult? ==> s.goalHandle == Some(s.goalSerial))
          && (s.transitionInProgress ==> s.goalHandle.Some? && s.goalHandle.value < s.goalSerial))
  }

  /** The goals sent are start, start + 1, ... around the list, in serial and time order. */
  ghost predicate Route(cfg: Config, start: nat, s: State, clock: real)
    requires cfg.waypoints != []
  {
    && s.sends != []
    && (forall k :: 0 <= k < |s.sends| ==> s.sends[k].index == (start + k) % |cfg.waypoints|)
    && s.index == (start + |s.sends| - 1) % |cfg.waypoints|
    && (!cfg.loop ==> start + |s.sends| <= |cfg.waypoints|)
    && (forall k :: 0 <= k < |s.sends| ==> s.sends[k].serial <= s.goalSerial && s.sends[k].at <= clock)
    && (forall j, k :: 0 <= j < k < |s.sends| ==>
          s.sends[j].serial < s.sends[k].serial && s.sends[j].at <= s.sends[k].at)
  }

  function Max0(r: real): real {
    if r > 0.0 then r else 0.0
  }

  /** How send k was left behind, and when the next goal may follow it. */
  ghost predicate Left(cfg: Config, s: State, k: nat)
    requires k < |s.sends| && s.sends[k].index < |cfg.waypoints|
  {
    if k in s.arrivedAt then
      && k !in s.skipped
      && s.sends[k].at <= s.arrivedAt[k]
      && (k + 1 < |s.sends| ==> s.arrivedAt[k] + Max0(cfg.Dwell(s.sends[k].index)) <= s.sends[k + 1].at)
    else
      k in s.skipped && !cfg.stopOnFailure
  }

  ghost predicate Dwells(cfg: Config, s: State, clock: real)
    requires forall k :: 0 <= k < |s.sends| ==> s.sends[k].index < |cfg.waypoints|
    requires s.sends != []
  {
    var last := |s.sends| - 1;
    && (forall k: nat :: k < last ==> Left(cfg, s, k))
    && (forall k :: k in s.arrivedAt || k in s.skipped ==> k <= last)
    && (s.waitingUntil.Some? ==>
          && last in s.arrivedAt && last !in s.skipped
          && s.sends[last].at <= s.arrivedAt[last] <= clock
          && cfg.Dwell(s.sends[last].index) > 0.0
          && s.waitingUntil.value == s.arrivedAt[last] + cfg.Dwell(s.sends[last].index))
    && (!s.finished && s.waitingUntil.None? ==> last !in s.arrivedAt && last !in s.skipped)
  }

  /** Everything that holds between callbacks once the first goal is out. */
  ghost predicate Inv(cfg: Config, start: nat, s: State, clock: real) {
    && cfg.Valid() && start < |cfg.waypoints|
    && !s.indexError && s.index < |cfg.waypoints|
    && Route(cfg, start, s, clock)
    && Dwells(cfg, s, clock)
    && (forall i :: 0 <= i < |s.stops| ==> !s.stops[i])
    && (if s.finished then
          !s.holdingStop && s.waitingUntil.None? && !s.transitionInProgress
          && (forall c :: c in s.pending ==> c.GoalResult?)
        else Shape(cfg, s))
  }

  /** The events the environment may produce: callbacks that are pending, and a clock that does not go back. */
  ghost predicate Enabled(s: State, clock: real, e: Event, now: real) {
    && e.WellFormed() && clock <= now
    && (e.Delivers().Some? ==> e.Delivers().value in s.pending)
  }
}
