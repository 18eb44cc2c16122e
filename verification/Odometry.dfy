/** Wheel odometry from encoder readings, and what it adds up to over a run. */
module Odometry {
  import opened RealArithmetic
  import opened Trigonometry
  import opened WheelCounts
  import opened YawUnwrapping

  datatype Reading = Reading(right: int, left: int) {
    /** What a reading says about the heading: the lead of the left counter. */
    function Lead(): int { left - right }
  }

  datatype Odom = Odom(
    counters: Reading,
    rollRight: real,
    rollLeft: real,
    firstTime: bool,
    x: real,
    y: real,
    yaw: real)

  /** Revolutions between two counter values; without a positive count per revolution, none. */
  function Jump(from: int, to: int, p: Params): real {
    if p.CountsPerRev() > 0.0 then Ratio((to - from) as real, p.CountsPerRev()) else 0.0
  }

  predicate TooFar(from: Reading, to: Reading, p: Params) {
    Abs(Jump(from.right, to.right, p)) > 100.0 || Abs(Jump(from.left, to.left, p)) > 100.0
  }

  /** The scale takes effect only when it differs visibly from one. */
  function EffectiveScale(p: Params): real {
    if Abs(p.odomScale - 1.0) > 0.000000001 then p.odomScale else 1.0
  }

  function Counted(s: Odom, r: Reading, p: Params): Odom {
    s.(counters := r,
       rollRight := if s.firstTime then 0.0 else -Jump(s.counters.right, r.right, p),
       rollLeft := if s.firstTime then 0.0 else -Jump(s.counters.left, r.left, p),
       firstTime := false)
  }

  function Linear(s: Odom, p: Params): real {
    Product(LinearTravel(s.rollRight, s.rollLeft, p), EffectiveScale(p))
  }

  function Angular(s: Odom, p: Params): real
    requires p.trackWidth != 0.0
  {
    Product(Turn(s.rollRight, s.rollLeft, p), EffectiveScale(p))
  }

  function Moved(t: Trig, normalize: real -> real, s: Odom, p: Params): Odom
    requires p.trackWidth != 0.0
  {
    s.(x := s.x + Product(Linear(s, p), t.cos(s.yaw)),
       y := s.y + Product(Linear(s, p), t.sin(s.yaw)),
       yaw := normalize(s.yaw + Angular(s, p)))
  }

  /** The state after one reading. A track width of zero raises after the counters are stored. */
  function Updated(t: Trig, normalize: real -> real, s: Odom, r: Reading, p: Params): Odom {
    if TooFar(s.counters, r, p) then s.(counters := r)
    else if p.trackWidth == 0.0 then Counted(s, r, p)
    else Moved(t, normalize, Counted(s, r, p), p)
  }

  predicate Raises(s: Odom, r: Reading, p: Params) {
    !TooFar(s.counters, r, p) && p.trackWidth == 0.0
  }

  class OdomState {
    var encoderRightOld: int
    var encoderLeftOld: int
    var odomRollRight: real
    var odomRollLeft: real
    var firstTime: bool
    var x: real
    var y: real
    var yaw: real

    constructor ()
      ensures Abstract() == Odom(Reading(0, 0), 0.0, 0.0, true, 0.0, 0.0, 0.0)
    {
      encoderRightOld, encoderLeftOld := 0, 0;
      odomRollRight, odomRollLeft := 0.0, 0.0;
      firstTime := true;
      x, y, yaw := 0.0, 0.0, 0.0;
    }

    ghost function Abstract(): Odom
      reads this
    {
      Odom(Reading(encoderRightOld, encoderLeftOld), odomRollRight, odomRollLeft, firstTime, x, y, yaw)
    }

    method UpdateFromCounts(t: Trig, normalize: real -> real, rightCount: int, leftCount: int, p: Params)
      returns (raised: bool)
      modifies this
      ensures Abstract() == Updated(t, normalize, old(Abstract()), Reading(rightCount, leftCount), p)
      ensures raised <==> Raises(old(Abstract()), Reading(rightCount, leftCount), p)
    {
      raised := false;
      var countsPerWheelRev := p.CountsPerRev();
      var rightDiff, leftDiff := 0.0, 0.0;
      if countsPerWheelRev > 0.0 {
        rightDiff := (rightCount - encoderRightOld) as real / countsPerWheelRev;
        leftDiff := (leftCount - encoderLeftOld) as real / countsPerWheelRev;
      }
      assert rightDiff == Jump(encoderRightOld, rightCount, p);
      assert leftDiff == Jump(encoderLeftOld, leftCount, p);
      if Abs(rightDiff) > 100.0 || Abs(leftDiff) > 100.0 {
        encoderRightOld := rightCount;
        encoderLeftOld := leftCount;
        return;
      }
      odomRollRight := -1.0 * rightDiff;
      odomRollLeft := -1.0 * leftDiff;
      if firstTime {
        odomRollRight := 0.0;
        odomRollLeft := 0.0;
        firstTime := false;
      }
      encoderRightOld := rightCount;
      encoderLeftOld := leftCount;
      assert Abstract() == Counted(old(Abstract()), Reading(rightCount, leftCount), p);
      if p.trackWidth == 0.0 {
        return true;
      }
      Move(t, normalize, p);
    }

    /** Moves the pose by the rolls just stored. */
    method Move(t: Trig, normalize: real -> real, p: Params)
      requires p.trackWidth != 0.0
      modifies this`x, this`y, this`yaw
      ensures Abstract() == Moved(t, normalize, old(Abstract()), p)
    {
      var linear := LinearTravel(odomRollRight, odomRollLeft, p);
      var angular := Turn(odomRollRight, odomRollLeft, p);
      if Abs(p.odomScale - 1.0) > 0.000000001 {
        linear := Product(linear, p.odomScale);
        angular := Product(angular, p.odomScale);
      } else {
        One(linear);
        One(angular);
      }
      x := x + Product(linear, t.cos(yaw));
      y := y + Product(linear, t.sin(yaw));
      yaw := normalize(yaw + angular);
    }
  }

  // ----- One reading, in revolutions ---------------------------------------------------

  /** The share of a distance that a scale leaves: the distance itself when the scale is within 1e-9 of one. */
  function Scaled(distance: real, scale: real): real {
    if -0.000000001 <= scale - 1.0 <= 0.000000001 then distance else Product(distance, scale)
  }

  lemma ScaledProduct(distance: real, p: Params)
    ensures Product(distance, EffectiveScale(p)) == Scaled(distance, p.odomScale)
  {
    One(distance);
  }

  /** A reading is thrown away when either counter moved by more than 100 revolutions of n counts. */
  lemma FarInRevolutions(from: Reading, to: Reading, p: Params, n: real)
    requires PerRevolution(p, n)
    ensures TooFar(from, to, p) <==>
      n > 0.0 && (Abs((to.right - from.right) as real) > 100.0 * n || Abs((to.left - from.left) as real) > 100.0 * n)
  {
    RevolutionCounts(p, n);
    if n > 0.0 {
      FarCounts((to.right - from.right) as real, n);
      FarCounts((to.left - from.left) as real, n);
    }
  }

  lemma FarCounts(d: real, n: real)
    requires n > 0.0
    ensures Abs(Ratio(d, n)) > 100.0 <==> Abs(d) > 100.0 * n
  {
    AbsRatio(d, n);
    RatioBack(Abs(d), n);
    Monotone(Ratio(Abs(d), n), 100.0, n);
    assert Product(100.0, n) == 100.0 * n;
  }

  /** With n counts to the revolution each wheel rolled by its counts, against the direction of counting. */
  lemma WheelsInRevolutions(s: Odom, r: Reading, p: Params, n: real)
    requires PerRevolution(p, n) && n > 0.0 && !s.firstTime
    ensures var rolled := Counted(s, r, p);
      && Product(rolled.rollRight, n) == -((r.right - s.counters.right) as real)
      && Product(rolled.rollLeft, n) == -((r.left - s.counters.left) as real)
  {
    RevolutionCounts(p, n);
    var right, left := (r.right - s.counters.right) as real, (r.left - s.counters.left) as real;
    RatioBack(right, n);
    RatioBack(left, n);
    Distribute(Ratio(right, n), 0.0, n);
    Distribute(Ratio(left, n), 0.0, n);
  }

  lemma TravelInRevolutions(rollRight: real, rollLeft: real, right: real, left: real, p: Params, n: real)
    requires Product(rollRight, n) == -right && Product(rollLeft, n) == -left
    ensures Product(LinearTravel(rollRight, rollLeft, p), n) == -Product((right + left) / 2.0, p.wheelCircumference)
  {
    var c := p.wheelCircumference;
    Distribute(rollRight, -rollLeft, n);
    ProductAssociates(rollRight + rollLeft, c, n);
    ProductCommutes(c, n);
    ProductAssociates(rollRight + rollLeft, n, c);
    assert Product(rollRight + rollLeft, n) == -(right + left);
    assert Product(LinearTravel(rollRight, rollLeft, p), n) == Product(Product(rollRight + rollLeft, c), n) / 2.0;
    assert Product(-(right + left), c) / 2.0 == -Product((right + left) / 2.0, c);
  }

  lemma TurnInRevolutions(rollRight: real, rollLeft: real, right: real, left: real, p: Params, n: real)
    requires Product(rollRight, n) == -right && Product(rollLeft, n) == -left && p.trackWidth != 0.0
    ensures Product(Product(Turn(rollRight, rollLeft, p), p.trackWidth), n)
         == Product(left - right, p.wheelCircumference)
  {
    var c := p.wheelCircumference;
    Distribute(rollRight, rollLeft, n);
    RatioBack(Product(rollRight - rollLeft, c), p.trackWidth);
    ProductAssociates(rollRight - rollLeft, c, n);
    ProductCommutes(c, n);
    ProductAssociates(rollRight - rollLeft, n, c);
  }

  /**
    A reading kept, from the bare parameters: both wheels' counts as revolutions of the circumference move the
    robot against the direction of counting, and the lead of the left wheel over the track turns it; both scaled.
  */
  lemma ReadingInRevolutions(t: Trig, normalize: real -> real, s: Odom, r: Reading, p: Params, n: real)
    returns (travel: real, turn: real)
    requires PerRevolution(p, n) && n > 0.0 && p.trackWidth != 0.0 && !s.firstTime
    requires Abs((r.right - s.counters.right) as real) <= 100.0 * n
    requires Abs((r.left - s.counters.left) as real) <= 100.0 * n
    ensures var right, left := (r.right - s.counters.right) as real, (r.left - s.counters.left) as real;
      && Product(travel, n) == -Product((right + left) / 2.0, p.wheelCircumference)
      && Product(Product(turn, p.trackWidth), n) == Product(left - right, p.wheelCircumference)
    ensures var after := Updated(t, normalize, s, r, p);
      && after.x == s.x + Product(Scaled(travel, p.odomScale), t.cos(s.yaw))
      && after.y == s.y + Product(Scaled(travel, p.odomScale), t.sin(s.yaw))
      && after.yaw == normalize(s.yaw + Scaled(turn, p.odomScale))
      && after.counters == r && !after.firstTime
  {
    var right, left := (r.right - s.counters.right) as real, (r.left - s.counters.left) as real;
    var rolled := Counted(s, r, p);
    FarInRevolutions(s.counters, r, p, n);
    WheelsInRevolutions(s, r, p, n);
    travel, turn := LinearTravel(rolled.rollRight, rolled.rollLeft, p), Turn(rolled.rollRight, rolled.rollLeft, p);
    TravelInRevolutions(rolled.rollRight, rolled.rollLeft, right, left, p, n);
    TurnInRevolutions(rolled.rollRight, rolled.rollLeft, right, left, p, n);
    ScaledProduct(travel, p);
    ScaledProduct(turn, p);
  }

  /** Without counts per revolution, or on the first reading, a reading kept moves nothing. */
  lemma ReadingMovesNothing(t: Trig, normalize: real -> real, s: Odom, r: Reading, p: Params, n: real)
    requires PerRevolution(p, n) && p.trackWidth != 0.0
    requires n <= 0.0 || (s.firstTime && !TooFar(s.counters, r, p))
    ensures var after := Updated(t, normalize, s, r, p);
      after.x == s.x && after.y == s.y && after.yaw == normalize(s.yaw) && after.counters == r && !after.firstTime
  {
    RevolutionCounts(p, n);
    FarInRevolutions(s.counters, r, p, n);
    NothingTurned(p.wheelCircumference, p.trackWidth, EffectiveScale(p));
    NoTravel(p.wheelCircumference, EffectiveScale(p), t.cos(s.yaw));
    NoTravel(p.wheelCircumference, EffectiveScale(p), t.sin(s.yaw));
  }

  lemma NoTravel(c: real, e: real, direction: real)
    ensures Product(Product(Product(0.0, c) / 2.0, e), direction) == 0.0
  {
  }

  /** One revolution of both wheels, and one of the left wheel alone. */
  lemma OneRevolutionDriven(t: Trig, normalize: real -> real, s: Odom, n: int, p: Params)
    requires PerRevolution(p, n as real) && n > 0 && p.trackWidth != 0.0 && !s.firstTime
    ensures var both := Updated(t, normalize, s, Reading(s.counters.right + n, s.counters.left + n), p);
      && both.x == s.x - Product(Scaled(p.wheelCircumference, p.odomScale), t.cos(s.yaw))
      && both.y == s.y - Product(Scaled(p.wheelCircumference, p.odomScale), t.sin(s.yaw))
      && both.yaw == normalize(s.yaw)
    ensures var lead := Updated(t, normalize, s, Reading(s.counters.right, s.counters.left + n), p);
      lead.yaw == normalize(s.yaw + Scaled(Ratio(p.wheelCircumference, p.trackWidth), p.odomScale))
  {
    var c := p.wheelCircumference;
    var both := Reading(s.counters.right + n, s.counters.left + n);
    var lead := Reading(s.counters.right, s.counters.left + n);
    var travel, turn := ReadingInRevolutions(t, normalize, s, both, p, n as real);
    var travel', turn' := ReadingInRevolutions(t, normalize, s, lead, p, n as real);
    WholeTravel(travel, turn, turn', c, p.trackWidth, n as real);
    NegatedTravel(c, p.odomScale, t.cos(s.yaw));
    NegatedTravel(c, p.odomScale, t.sin(s.yaw));
    assert Product(0.0, p.odomScale) == 0.0;
  }

  lemma WholeTravel(travel: real, turn: real, turn': real, c: real, w: real, n: real)
    requires n > 0.0 && w != 0.0
    requires Product(travel, n) == -Product(n, c)
    requires Product(Product(turn, w), n) == Product(0.0, c) && Product(Product(turn', w), n) == Product(n, c)
    ensures travel == -c && turn == 0.0 && turn' == Ratio(c, w)
  {
    ProductCommutes(n, c);
    RatioBack(travel, n);
    RatioBack(-c, n);
    Distribute(c, 0.0, n);
    RatioBack(Product(turn, w), n);
    RatioBack(Product(turn', w), n);
    RatioBack(c, n);
    RatioBack(turn, w);
    RatioBack(turn', w);
    RatioBack(0.0, w);
    RatioOfZero(n);
    RatioOfZero(w);
    assert Product(0.0, c) == 0.0;
  }

  lemma NegatedTravel(c: real, scale: real, direction: real)
    ensures Product(Scaled(-c, scale), direction) == -Product(Scaled(c, scale), direction)
  {
    Distribute(c, 0.0, scale);
    Distribute(Scaled(c, scale), 0.0, direction);
  }

  // ----- Runs --------------------------------------------------------------------------

  function Run(t: Trig, normalize: real -> real, s: Odom, readings: seq<Reading>, p: Params): Odom
    decreases |readings|
  {
    if readings == [] then s
    else Run(t, normalize, Updated(t, normalize, s, readings[0], p), readings[1..], p)
  }

  /** Equal up to whole turns. */
  ghost predicate Congruent(pi: real, a: real, b: real) {
    exists k: int :: a - b == Turns(pi, k)
  }

  lemma CongruentBoth(pi: real, a: real, b: real, c: real)
    requires Congruent(pi, a, c) && Congruent(pi, b, c)
    ensures Congruent(pi, a, b)
  {
    var j: int :| a - c == Turns(pi, j);
    var k: int :| b - c == Turns(pi, k);
    TurnsAdd(pi, j, k);
    assert a - b == Turns(pi, j - k);
  }

  /** All that is used of atan2(sin z, cos z): it gives the angle back up to whole turns. */
  ghost predicate Normalizes(pi: real, normalize: real -> real) {
    forall z :: Congruent(pi, normalize(z), z)
  }

  /** Heading change per count of lead. */
  function TurnPerCount(p: Params): real
    requires p.trackWidth != 0.0
  {
    if p.CountsPerRev() > 0.0
    then Product(Ratio(Product(Ratio(1.0, p.CountsPerRev()), p.wheelCircumference), p.trackWidth), EffectiveScale(p))
    else 0.0
  }

  function TurnOf(lead: int, p: Params): real
    requires p.trackWidth != 0.0
  {
    Product(lead as real, TurnPerCount(p))
  }

  lemma RatioOfProduct(k: real, a: real, d: real)
    requires d != 0.0
    ensures Ratio(Product(k, a), d) == Product(k, Ratio(a, d))
  {
    RatioBack(a, d);
    ProductAssociates(k, Ratio(a, d), d);
    RatioBack(Product(k, Ratio(a, d)), d);
  }

  lemma JumpDifference(from: Reading, to: Reading, p: Params)
    ensures Jump(from.left, to.left, p) - Jump(from.right, to.right, p)
         == if p.CountsPerRev() > 0.0 then Product((to.Lead() - from.Lead()) as real, Ratio(1.0, p.CountsPerRev()))
            else 0.0
  {
    var n := p.CountsPerRev();
    if n > 0.0 {
      var left, right := (to.left - from.left) as real, (to.right - from.right) as real;
      RatioSum(left, right, n);
      RatioOfProduct(left - right, 1.0, n);
      assert Product(left - right, 1.0) == left - right;
    }
  }

  /** The heading change of a step depends on the two readings only through their leads. */
  lemma AngularIsTurn(s: Odom, r: Reading, p: Params)
    requires p.trackWidth != 0.0
    ensures Angular(Counted(s, r, p), p) == if s.firstTime then 0.0 else TurnOf(r.Lead() - s.counters.Lead(), p)
  {
    var c, w, n, e := p.wheelCircumference, p.trackWidth, p.CountsPerRev(), EffectiveScale(p);
    var rolled := Counted(s, r, p);
    JumpDifference(s.counters, r, p);
    if s.firstTime || n <= 0.0 {
      NothingTurned(c, w, e);
      assert rolled.rollRight - rolled.rollLeft == 0.0;
      assert TurnOf(r.Lead() - s.counters.Lead(), p) == 0.0 || s.firstTime;
    } else {
      var k := (r.Lead() - s.counters.Lead()) as real;
      assert rolled.rollRight - rolled.rollLeft == Product(k, Ratio(1.0, n));
      ProductAssociates(k, Ratio(1.0, n), c);
      RatioOfProduct(k, Product(Ratio(1.0, n), c), w);
      ProductAssociates(k, Ratio(Product(Ratio(1.0, n), c), w), e);
    }
  }

  lemma NothingTurned(c: real, w: real, e: real)
    requires w != 0.0
    ensures Product(Ratio(Product(0.0, c), w), e) == 0.0
  {
  }

  lemma TurnsOfLeads(a: int, b: int, p: Params)
    requires p.trackWidth != 0.0
    ensures TurnOf(a, p) + TurnOf(b, p) == TurnOf(a + b, p)
    ensures TurnOf(0, p) == 0.0
  {
    Distribute(a as real, b as real, TurnPerCount(p));
    assert Product(0.0, TurnPerCount(p)) == 0.0;
  }

  /** The lead gained over the readings that are not thrown away; the first one kept only sets the counters. */
  function LeadGained(from: Reading, first: bool, readings: seq<Reading>, p: Params): int
    decreases |readings|
  {
    if readings == [] then 0
    else if TooFar(from, readings[0], p) then LeadGained(readings[0], first, readings[1..], p)
    else (if first then 0 else readings[0].Lead() - from.Lead()) + LeadGained(readings[0], false, readings[1..], p)
  }

  /** Whatever the readings, the heading is the start heading turned by the lead gained. */
  lemma {:induction false} HeadingOfRun(
    t: Trig, normalize: real -> real, pi: real, s: Odom, readings: seq<Reading>, p: Params)
    requires p.trackWidth != 0.0 && Normalizes(pi, normalize)
    ensures Congruent(pi, Run(t, normalize, s, readings, p).yaw,
                      s.yaw + TurnOf(LeadGained(s.counters, s.firstTime, readings, p), p))
    decreases |readings|
  {
    if readings == [] {
      TurnsOfLeads(0, 0, p);
      TurnsFar0(pi);
      assert Congruent(pi, s.yaw, s.yaw + TurnOf(0, p));
    } else {
      var r, rest := readings[0], readings[1..];
      var s' := Updated(t, normalize, s, r, p);
      HeadingOfRun(t, normalize, pi, s', rest, p);
      if !TooFar(s.counters, r, p) {
        var gained := if s.firstTime then 0 else r.Lead() - s.counters.Lead();
        var more := LeadGained(r, false, rest, p);
        AngularIsTurn(s, r, p);
        TurnsOfLeads(gained, more, p);
        assert Congruent(pi, normalize(s.yaw + TurnOf(gained, p)), s.yaw + TurnOf(gained, p));
        OneStep(pi, Run(t, normalize, s', rest, p).yaw, s'.yaw, s.yaw + TurnOf(gained, p), TurnOf(more, p));
      }
    }
  }

  lemma TurnsFar0(pi: real)
    ensures Turns(pi, 0) == 0.0
  {
  }

  lemma OneStep(pi: real, end: real, middle: real, start: real, more: real)
    requires Congruent(pi, end, middle + more) && Congruent(pi, middle, start)
    ensures Congruent(pi, end, start + more)
  {
    var j: int :| end - (middle + more) == Turns(pi, j);
    var k: int :| middle - start == Turns(pi, k);
    TurnsAdd(pi, j, k);
    assert end - (start + more) == Turns(pi, j + k);
  }

  predicate AllInRange(from: Reading, readings: seq<Reading>, p: Params)
    decreases |readings|
  {
    readings == [] || (!TooFar(from, readings[0], p) && AllInRange(readings[0], readings[1..], p))
  }

  function Last(from: Reading, readings: seq<Reading>): Reading {
    if readings == [] then from else readings[|readings| - 1]
  }

  /** The reading from which turning counts: the old counters, or on a fresh state the first reading kept. */
  function Base(from: Reading, first: bool, readings: seq<Reading>, p: Params): Reading
    decreases |readings|
  {
    if !first || readings == [] then from
    else if TooFar(from, readings[0], p) then Base(readings[0], true, readings[1..], p)
    else readings[0]
  }

  /** The lead of all jumps thrown away after that reading. */
  function LeadLost(from: Reading, first: bool, readings: seq<Reading>, p: Params): int
    decreases |readings|
  {
    if readings == [] then 0
    else if TooFar(from, readings[0], p) then
      (if first then 0 else readings[0].Lead() - from.Lead()) + LeadLost(readings[0], first, readings[1..], p)
    else LeadLost(readings[0], false, readings[1..], p)
  }

  /** Whatever the readings, the gains telescope to last minus base, short of exactly the lead thrown away. */
  lemma {:induction false} LostLead(from: Reading, first: bool, readings: seq<Reading>, p: Params)
    ensures LeadGained(from, first, readings, p)
         == Last(from, readings).Lead() - Base(from, first, readings, p).Lead() - LeadLost(from, first, readings, p)
    decreases |readings|
  {
    if readings != [] {
      LostLead(readings[0], first && TooFar(from, readings[0], p), readings[1..], p);
    }
  }

  /** With every jump in range nothing is lost, and a fresh state counts from its first reading. */
  lemma {:induction false} LeadTelescopes(from: Reading, first: bool, readings: seq<Reading>, p: Params)
    requires AllInRange(from, readings, p)
    ensures LeadLost(from, first, readings, p) == 0
    ensures Base(from, first, readings, p) == if first && readings != [] then readings[0] else from
    decreases |readings|
  {
    if readings != [] {
      LeadTelescopes(readings[0], false, readings[1..], p);
    }
  }

  /** Where the run should end up judging by its end points alone. */
  function HeadingByEndpoints(s: Odom, readings: seq<Reading>, p: Params): real
    requires p.trackWidth != 0.0
  {
    s.yaw + TurnOf(Last(s.counters, readings).Lead() - Base(s.counters, s.firstTime, readings, p).Lead(), p)
  }

  /** The heading agrees with the end points exactly when the lead thrown away amounts to whole turns. */
  lemma LostHeading(t: Trig, normalize: real -> real, pi: real, s: Odom, readings: seq<Reading>, p: Params)
    requires p.trackWidth != 0.0 && Normalizes(pi, normalize)
    ensures Congruent(pi, Run(t, normalize, s, readings, p).yaw, HeadingByEndpoints(s, readings, p))
       <==> Congruent(pi, TurnOf(LeadLost(s.counters, s.firstTime, readings, p), p), 0.0)
  {
    var gained := LeadGained(s.counters, s.firstTime, readings, p);
    var lost := LeadLost(s.counters, s.firstTime, readings, p);
    HeadingOfRun(t, normalize, pi, s, readings, p);
    LostLead(s.counters, s.firstTime, readings, p);
    TurnsOfLeads(gained, lost, p);
    ShortBy(pi, Run(t, normalize, s, readings, p).yaw, s.yaw + TurnOf(gained, p), TurnOf(lost, p));
  }

  lemma ShortBy(pi: real, yaw: real, reached: real, lost: real)
    requires Congruent(pi, yaw, reached)
    ensures Congruent(pi, yaw, reached + lost) <==> Congruent(pi, lost, 0.0)
  {
    var j: int :| yaw - reached == Turns(pi, j);
    if Congruent(pi, yaw, reached + lost) {
      var k: int :| yaw - (reached + lost) == Turns(pi, k);
      TurnsAdd(pi, k, j);
      assert lost - 0.0 == Turns(pi, j - k);
    }
    if Congruent(pi, lost, 0.0) {
      var k: int :| lost - 0.0 == Turns(pi, k);
      TurnsAdd(pi, j, k);
      assert yaw - (reached + lost) == Turns(pi, j - k);
    }
  }

  /** Unless a single count turns the robot by whole turns, some reading is lost with its heading. */
  lemma FarReadingIsLost(t: Trig, normalize: real -> real, pi: real, s: Odom, p: Params) returns (r: Reading)
    requires p.trackWidth != 0.0 && p.CountsPerRev() > 0.0 && Normalizes(pi, normalize) && !s.firstTime
    requires !Congruent(pi, TurnPerCount(p), 0.0)
    ensures !Congruent(pi, Run(t, normalize, s, [r], p).yaw, HeadingByEndpoints(s, [r], p))
  {
    var n := Product(100.0, p.CountsPerRev()).Floor + 1;
    if Congruent(pi, TurnOf(n, p), 0.0) && Congruent(pi, TurnOf(n + 1, p), 0.0) {
      NextCount(pi, n, p);
    }
    var far := if Congruent(pi, TurnOf(n, p), 0.0) then n + 1 else n;
    r := Reading(s.counters.right, s.counters.left + far);
    FarJump(s.counters.left, far, p);
    LostHeading(t, normalize, pi, s, [r], p);
    assert LeadLost(s.counters, false, [r], p) == far;
  }

  lemma NextCount(pi: real, n: int, p: Params)
    requires p.trackWidth != 0.0 && Congruent(pi, TurnOf(n, p), 0.0) && Congruent(pi, TurnOf(n + 1, p), 0.0)
    ensures Congruent(pi, TurnPerCount(p), 0.0)
  {
    var j: int :| TurnOf(n, p) - 0.0 == Turns(pi, j);
    var k: int :| TurnOf(n + 1, p) - 0.0 == Turns(pi, k);
    TurnsAdd(pi, k, j);
    TurnsOfLeads(n, 1, p);
    assert Product(1.0, TurnPerCount(p)) == TurnPerCount(p);
    assert TurnPerCount(p) - 0.0 == Turns(pi, k - j);
  }

  lemma FarJump(from: int, far: int, p: Params)
    requires p.CountsPerRev() > 0.0 && far as real > Product(100.0, p.CountsPerRev())
    ensures Abs(Jump(from, from + far, p)) > 100.0
  {
    RatioBack(100.0, p.CountsPerRev());
    RatioMonotone(far as real, Product(100.0, p.CountsPerRev()), p.CountsPerRev());
    assert (from + far - from) as real == far as real;
  }

  /** With every jump in range only the last reading matters for the heading. */
  lemma HeadingFromEndpoints(
    t: Trig, normalize: real -> real, pi: real, s: Odom, readings: seq<Reading>, p: Params)
    requires p.trackWidth != 0.0 && Normalizes(pi, normalize)
    requires AllInRange(s.counters, readings, p)
    ensures Congruent(pi, Run(t, normalize, s, readings, p).yaw, HeadingByEndpoints(s, readings, p))
  {
    LeadTelescopes(s.counters, s.firstTime, readings, p);
    TurnsOfLeads(0, 0, p);
    TurnsFar0(pi);
    assert Congruent(pi, TurnOf(0, p), 0.0);
    LostHeading(t, normalize, pi, s, readings, p);
  }

  /** Two runs from one state that end on the same reading agree on the heading, whatever lies between. */
  lemma HeadingIsPathIndependent(
    t: Trig, normalize: real -> real, pi: real, s: Odom, one: seq<Reading>, other: seq<Reading>, p: Params)
    requires p.trackWidth != 0.0 && Normalizes(pi, normalize)
    requires AllInRange(s.counters, one, p) && AllInRange(s.counters, other, p)
    requires Last(s.counters, one) == Last(s.counters, other)
    requires Base(s.counters, s.firstTime, one, p) == Base(s.counters, s.firstTime, other, p)
    ensures Congruent(pi, Run(t, normalize, s, one, p).yaw, Run(t, normalize, s, other, p).yaw)
  {
    HeadingFromEndpoints(t, normalize, pi, s, one, p);
    HeadingFromEndpoints(t, normalize, pi, s, other, p);
    CongruentBoth(pi, Run(t, normalize, s, one, p).yaw, Run(t, normalize, s, other, p).yaw,
                  HeadingByEndpoints(s, one, p));
  }

  /** Inserting a reading in the middle of a run, or dropping it, leaves the heading alone. */
  lemma IntermediateReadingsDoNotMatter(
    t: Trig, normalize: real -> real, pi: real, s: Odom, front: seq<Reading>, r: Reading, back: seq<Reading>, p: Params)
    requires p.trackWidth != 0.0 && Normalizes(pi, normalize)
    requires front != [] && back != []
    requires AllInRange(s.counters, front + back, p) && AllInRange(s.counters, front + [r] + back, p)
    ensures Congruent(pi, Run(t, normalize, s, front + [r] + back, p).yaw, Run(t, normalize, s, front + back, p).yaw)
  {
    LeadTelescopes(s.counters, s.firstTime, front + [r] + back, p);
    LeadTelescopes(s.counters, s.firstTime, front + back, p);
    HeadingIsPathIndependent(t, normalize, pi, s, front + [r] + back, front + back, p);
  }

  // ----- Against the quantised prediction ----------------------------------------------

  /** Feeding the predicted counts to the odometry moves it by the predicted distance and turn. */
  lemma OdometryMatchesPrediction(
    t: Trig, normalize: real -> real, s: Odom, linearX: real, angularZ: real, dt: real, p: Params)
    requires p.wheelCircumference > 0.0 && p.CountsPerRev() > 0.0 && p.trackWidth != 0.0
    requires !s.firstTime && EffectiveScale(p) == 1.0
    ensures QuantizedTwist(linearX, angularZ, dt, p).Ok?
    ensures var q := QuantizedTwist(linearX, angularZ, dt, p).value;
      var r := Reading(s.counters.right + q.countsRight, s.counters.left + q.countsLeft);
      !TooFar(s.counters, r, p) ==>
        var after := Updated(t, normalize, s, r, p);
        && after.x == s.x + Product(q.linear, t.cos(s.yaw))
        && after.y == s.y + Product(q.linear, t.sin(s.yaw))
        && after.yaw == normalize(s.yaw + q.angular)
  {
    var q := QuantizedTwist(linearX, angularZ, dt, p).value;
    var r := Reading(s.counters.right + q.countsRight, s.counters.left + q.countsLeft);
    var rolled := Counted(s, r, p);
    assert rolled.rollRight == Roll(q.countsRight, p) && rolled.rollLeft == Roll(q.countsLeft, p);
    One(q.linear);
    One(q.angular);
    assert Linear(rolled, p) == q.linear && Angular(rolled, p) == q.angular;
  }

  lemma One(a: real)
    ensures Product(a, 1.0) == a
  {
  }

  datatype Twist = Twist(linearX: real, angularZ: real, dt: real)

  /** The counters after each of the twists has been driven for its period. */
  function Driven(from: Reading, twists: seq<Twist>, p: Params): seq<Reading>
    requires p.wheelCircumference > 0.0
    decreases |twists|
  {
    if twists == [] then []
    else
      var q := QuantizedTwist(twists[0].linearX, twists[0].angularZ, twists[0].dt, p).value;
      var next := Reading(from.right + q.countsRight, from.left + q.countsLeft);
      [next] + Driven(next, twists[1..], p)
  }

  function CommandedTurn(twists: seq<Twist>): real
    decreases |twists|
  {
    if twists == [] then 0.0 else Product(twists[0].angularZ, twists[0].dt) + CommandedTurn(twists[1..])
  }

  lemma OneTwist(from: Reading, twist: Twist, p: Params)
    requires p.wheelCircumference > 0.0 && p.CountsPerRev() > 0.0 && p.trackWidth != 0.0 && EffectiveScale(p) == 1.0
    ensures var q := QuantizedTwist(twist.linearX, twist.angularZ, twist.dt, p).value;
      Abs(TurnOf(q.countsLeft - q.countsRight, p) - Product(twist.angularZ, twist.dt))
        <= Ratio(2.0 * HalfCount(p), Abs(p.trackWidth))
  {
    var q := QuantizedTwist(twist.linearX, twist.angularZ, twist.dt, p).value;
    var next := Reading(from.right + q.countsRight, from.left + q.countsLeft);
    var s := Odom(from, 0.0, 0.0, false, 0.0, 0.0, 0.0);
    AngularIsTurn(s, next, p);
    One(q.angular);
    assert Angular(Counted(s, next, p), p) == q.angular;
    QuantizationIsBounded(twist.linearX, twist.angularZ, twist.dt, p);
  }

  lemma OneMoreError(n: nat, e: real)
    requires n > 0
    ensures Product((n - 1) as real, e) + e == Product(n as real, e)
  {
  }

  /** Rounding to counts costs at most one count of turn for every period driven. */
  lemma {:induction false} DriftIsBounded(from: Reading, twists: seq<Twist>, p: Params)
    requires p.wheelCircumference > 0.0 && p.CountsPerRev() > 0.0 && p.trackWidth != 0.0 && EffectiveScale(p) == 1.0
    ensures Abs(TurnOf(Last(from, Driven(from, twists, p)).Lead() - from.Lead(), p) - CommandedTurn(twists))
         <= Product(|twists| as real, Ratio(2.0 * HalfCount(p), Abs(p.trackWidth)))
    decreases |twists|
  {
    if twists == [] {
      TurnsOfLeads(0, 0, p);
    } else {
      var readings := Driven(from, twists, p);
      var next := readings[0];
      DriftIsBounded(next, twists[1..], p);
      OneTwist(from, twists[0], p);
      TurnsOfLeads(next.Lead() - from.Lead(), Last(next, readings[1..]).Lead() - next.Lead(), p);
      OneMoreError(|twists|, Ratio(2.0 * HalfCount(p), Abs(p.trackWidth)));
    }
  }

  /**
    Odometry over the counters of any commanded run: the heading it reports, and how far that is from
    the commanded turn.
  */
  lemma CommandedRunIsMeasured(
    t: Trig, normalize: real -> real, pi: real, s: Odom, twists: seq<Twist>, p: Params) returns (turn: real)
    requires p.wheelCircumference > 0.0 && p.CountsPerRev() > 0.0 && p.trackWidth != 0.0 && EffectiveScale(p) == 1.0
    requires Normalizes(pi, normalize) && !s.firstTime
    requires AllInRange(s.counters, Driven(s.counters, twists, p), p)
    ensures Congruent(pi, Run(t, normalize, s, Driven(s.counters, twists, p), p).yaw, s.yaw + turn)
    ensures Abs(turn - CommandedTurn(twists)) <= Product(|twists| as real, Ratio(2.0 * HalfCount(p), Abs(p.trackWidth)))
  {
    var readings := Driven(s.counters, twists, p);
    DriftIsBounded(s.counters, twists, p);
    HeadingFromEndpoints(t, normalize, pi, s, readings, p);
    turn := TurnOf(Last(s.counters, readings).Lead() - s.counters.Lead(), p);
  }

  // ----- Driving straight --------------------------------------------------------------

  ghost predicate SameDirection(t: Trig, normalize: real -> real, z: real) {
    t.cos(normalize(z)) == t.cos(z) && t.sin(normalize(z)) == t.sin(z)
  }

  /** atan2(sin z, cos z) points the same way as z. */
  ghost predicate KeepsDirection(t: Trig, normalize: real -> real) {
    forall z :: SameDirection(t, normalize, z)
  }

  predicate Straight(from: Reading, readings: seq<Reading>) {
    forall r :: r in readings ==> r.Lead() == from.Lead()
  }

  /** Travel for k counts on both wheels. */
  function TravelOf(k: int, p: Params): real {
    if p.CountsPerRev() > 0.0
    then Product(-(k as real), Product(Product(Ratio(1.0, p.CountsPerRev()), p.wheelCircumference), EffectiveScale(p)))
    else 0.0
  }

  lemma TravelAdds(a: int, b: int, p: Params)
    ensures TravelOf(a, p) + TravelOf(b, p) == TravelOf(a + b, p)
    ensures TravelOf(0, p) == 0.0
  {
    if p.CountsPerRev() > 0.0 {
      var f := Product(Product(Ratio(1.0, p.CountsPerRev()), p.wheelCircumference), EffectiveScale(p));
      Distribute(-(a as real), -(b as real), f);
      assert Product(0.0, f) == 0.0;
    }
  }

  lemma StraightTravel(roll: real, c: real, e: real)
    ensures Product(Product(roll + roll, c) / 2.0, e) == Product(roll, Product(c, e))
  {
    Distribute(roll, roll, c);
    ProductAssociates(roll, c, e);
  }

  lemma StraightLinear(s: Odom, r: Reading, p: Params)
    requires !s.firstTime && r.Lead() == s.counters.Lead()
    ensures Linear(Counted(s, r, p), p) == TravelOf(r.right - s.counters.right, p)
  {
    var c, n, e := p.wheelCircumference, p.CountsPerRev(), EffectiveScale(p);
    var rolled := Counted(s, r, p);
    StraightTravel(rolled.rollRight, c, e);
    if n > 0.0 {
      var k := (r.right - s.counters.right) as real;
      RatioOfProduct(-k, 1.0, n);
      Distribute(k, 0.0, 1.0);
      One(k);
      RatioSum(0.0, k, n);
      assert Ratio(0.0, n) == 0.0;
      assert rolled.rollRight == Product(-k, Ratio(1.0, n));
      ProductAssociates(-k, Ratio(1.0, n), Product(c, e));
      ProductAssociates(Ratio(1.0, n), c, e);
    } else {
      assert Product(0.0, Product(c, e)) == 0.0;
    }
  }

  lemma StraightStep(t: Trig, normalize: real -> real, s: Odom, r: Reading, p: Params)
    requires p.trackWidth != 0.0 && KeepsDirection(t, normalize)
    requires !s.firstTime && r.Lead() == s.counters.Lead() && !TooFar(s.counters, r, p)
    ensures var after := Updated(t, normalize, s, r, p);
      && after.x == s.x + Product(TravelOf(r.right - s.counters.right, p), t.cos(s.yaw))
      && after.y == s.y + Product(TravelOf(r.right - s.counters.right, p), t.sin(s.yaw))
      && t.cos(after.yaw) == t.cos(s.yaw) && t.sin(after.yaw) == t.sin(s.yaw)
  {
    StraightLinear(s, r, p);
    AngularIsTurn(s, r, p);
    TurnsOfLeads(0, 0, p);
    assert SameDirection(t, normalize, s.yaw);
    assert s.yaw + Angular(Counted(s, r, p), p) == s.yaw;
  }

  /** Driving straight, position telescopes too: only the last reading matters. */
  lemma {:induction false} StraightRun(t: Trig, normalize: real -> real, s: Odom, readings: seq<Reading>, p: Params)
    requires p.trackWidth != 0.0 && KeepsDirection(t, normalize)
    requires !s.firstTime && Straight(s.counters, readings) && AllInRange(s.counters, readings, p)
    ensures var after := Run(t, normalize, s, readings, p);
      var travel := TravelOf(Last(s.counters, readings).right - s.counters.right, p);
      after.x == s.x + Product(travel, t.cos(s.yaw)) && after.y == s.y + Product(travel, t.sin(s.yaw))
    decreases |readings|
  {
    if readings == [] {
      TravelAdds(0, 0, p);
    } else {
      var r, rest := readings[0], readings[1..];
      var s' := Updated(t, normalize, s, r, p);
      StraightStep(t, normalize, s, r, p);
      StraightRun(t, normalize, s', rest, p);
      var done, more := TravelOf(r.right - s.counters.right, p), TravelOf(Last(r, rest).right - r.right, p);
      TravelAdds(r.right - s.counters.right, Last(r, rest).right - r.right, p);
      Distribute(done, more, t.cos(s.yaw));
      Distribute(done, more, t.sin(s.yaw));
    }
  }
}
