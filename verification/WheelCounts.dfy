/** Wheel speeds, encoder counts and what rounding to whole counts costs. */
module WheelCounts {
  import opened RealArithmetic
  import opened Wrappers

  datatype Params = Params(
    wheelCircumference: real,
    trackWidth: real,
    pulse: int,
    gearRatio: real,
    odomScale: real)
  {
    /** Encoder counts per wheel revolution; a gear ratio that is not positive counts as 1. */
    function CountsPerRev(): real {
      pulse as real * (if gearRatio <= 0.0 then 1.0 else gearRatio)
    }
  }

  /** Python's round(): the nearest integer, ties to even. */
  function Round(r: real): int {
    var f := r.Floor;
    var d := r - f as real;
    if d < 0.5 then f
    else if d > 0.5 then f + 1
    else if f % 2 == 0 then f
    else f + 1
  }

  lemma RoundIsNearest(r: real)
    ensures Abs(Round(r) as real - r) <= 0.5
  {
  }

  /** Half-way between two integers it is the even one. */
  lemma RoundTiesToEven(n: int)
    ensures Round(n as real + 0.5) == if n % 2 == 0 then n else n + 1
  {
    assert (n as real + 0.5).Floor == n;
  }

  lemma RoundOfInteger(n: int)
    ensures Round(n as real) == n
  {
  }

  /** Rounding treats both directions of travel alike. */
  lemma RoundIsOdd(r: real)
    ensures Round(-r) == -Round(r)
  {
    var f, g := r.Floor, (-r).Floor;
    if r == f as real {
      assert g == -f;
    } else {
      assert g == -f - 1;
    }
  }

  // ----- Distance and counts -----------------------------------------------------------

  datatype ModelError = CircumferenceNotPositive | NoCountsPerRev

  function CountsForDistance(distance: real, p: Params): Result<int, ModelError> {
    if p.wheelCircumference <= 0.0 then Err(CircumferenceNotPositive)
    else Ok(Round(Product(Ratio(distance, p.wheelCircumference), p.CountsPerRev())))
  }

  function DistanceForCounts(counts: int, p: Params): Result<real, ModelError> {
    if p.CountsPerRev() == 0.0 then Err(NoCountsPerRev)
    else Ok(Product(Ratio(counts as real, p.CountsPerRev()), p.wheelCircumference))
  }

  /** Counts survive the trip to a distance and back, for any number of counts and either sign of pulse. */
  lemma CountsRoundTrip(counts: int, p: Params)
    requires p.wheelCircumference > 0.0 && p.CountsPerRev() != 0.0
    ensures DistanceForCounts(counts, p).Ok?
    ensures CountsForDistance(DistanceForCounts(counts, p).value, p) == Ok(counts)
  {
    var c, n := p.wheelCircumference, p.CountsPerRev();
    RatioBack(Ratio(counts as real, n), c);
    RatioBack(counts as real, n);
    RoundOfInteger(counts);
  }

  /** n counts make a revolution: pulses times a positive gear ratio, or the bare pulses. */
  predicate PerRevolution(p: Params, n: real) {
    if p.gearRatio > 0.0 then n == p.pulse as real * p.gearRatio else n == p.pulse as real
  }

  lemma RevolutionCounts(p: Params, n: real)
    requires PerRevolution(p, n)
    ensures p.CountsPerRev() == n
  {
  }

  /** Counts are to the revolution as the distance is to the circumference. */
  lemma DistanceInRevolutions(counts: int, p: Params, n: real)
    requires PerRevolution(p, n)
    ensures DistanceForCounts(counts, p).Ok? <==> n != 0.0
    ensures n != 0.0 ==> DistanceForCounts(counts, p).value * n == counts as real * p.wheelCircumference
  {
    RevolutionCounts(p, n);
    if n != 0.0 {
      var revs := Ratio(counts as real, n);
      RatioBack(counts as real, n);
      ProductAssociates(revs, p.wheelCircumference, n);
      ProductCommutes(p.wheelCircumference, n);
      ProductAssociates(revs, n, p.wheelCircumference);
    }
  }

  /** And back, to the nearest whole count. */
  lemma CountsInRevolutions(distance: real, p: Params, n: real)
    requires PerRevolution(p, n) && p.wheelCircumference > 0.0
    ensures var counts := CountsForDistance(distance, p);
      && counts.Ok?
      && Abs(Product(counts.value as real, p.wheelCircumference) - Product(distance, n)) <= p.wheelCircumference / 2.0
  {
    RevolutionCounts(p, n);
    RoundedTravel(distance, p.wheelCircumference, n);
  }

  lemma RoundedTravel(distance: real, c: real, n: real)
    requires c > 0.0
    ensures var counts := Round(Product(Ratio(distance, c), n));
      Abs(Product(counts as real, c) - Product(distance, n)) <= c / 2.0
  {
    var wanted := Product(Ratio(distance, c), n);
    var counts := Round(wanted) as real;
    RoundIsNearest(wanted);
    RatioBack(distance, c);
    ProductAssociates(Ratio(distance, c), n, c);
    ProductCommutes(n, c);
    ProductAssociates(Ratio(distance, c), c, n);
    assert Product(wanted, c) == Product(distance, n);
    Distribute(counts, wanted, c);
    AbsProduct(counts - wanted, c);
    Monotone(Abs(counts - wanted), 0.5, c);
    assert Product(0.5, c) == c / 2.0;
  }

  /** One revolution is one circumference, both ways. */
  lemma OneRevolution(n: int, p: Params)
    requires PerRevolution(p, n as real) && n != 0
    ensures DistanceForCounts(n, p) == Ok(p.wheelCircumference)
    ensures p.wheelCircumference > 0.0 ==> CountsForDistance(p.wheelCircumference, p) == Ok(n)
  {
    RevolutionCounts(p, n as real);
    RatioOfSelf(n as real);
    RoundOfInteger(n);
    OneTimes(p.wheelCircumference);
    OneTimes(n as real);
    if p.wheelCircumference > 0.0 {
      RatioOfSelf(p.wheelCircumference);
    }
  }

  lemma OneTimes(a: real)
    ensures Product(1.0, a) == a
  {
  }

  /** The travel of half a count. */
  function HalfCount(p: Params): real
    requires p.CountsPerRev() != 0.0
  {
    Product(Ratio(0.5, Abs(p.CountsPerRev())), p.wheelCircumference)
  }

  /** Revolutions rebuilt from whole counts miss the real ones by at most half a count. */
  lemma RevolutionError(revs: real, n: real)
    requires n != 0.0
    ensures Abs(Ratio(Round(Product(revs, n)) as real, n) - revs) <= Ratio(0.5, Abs(n))
  {
    var counts := Round(Product(revs, n)) as real;
    RoundIsNearest(Product(revs, n));
    RatioBack(revs, n);
    RatioSum(counts, Product(revs, n), n);
    AbsRatio(counts - Product(revs, n), n);
    RatioMonotone(Abs(counts - Product(revs, n)), 0.5, Abs(n));
  }

  /** The travel rebuilt from whole counts misses the real travel by at most half a count's travel. */
  lemma TravelError(distance: real, p: Params)
    requires p.wheelCircumference > 0.0 && p.CountsPerRev() != 0.0
    ensures var counts := Round(Product(Ratio(distance, p.wheelCircumference), p.CountsPerRev()));
      Abs(Product(Ratio(counts as real, p.CountsPerRev()), p.wheelCircumference) - distance) <= HalfCount(p)
  {
    var c, n := p.wheelCircumference, p.CountsPerRev();
    var revs := Ratio(distance, c);
    var back := Ratio(Round(Product(revs, n)) as real, n);
    RevolutionError(revs, n);
    RatioBack(distance, c);
    Distribute(back, revs, c);
    AbsProduct(back - revs, c);
    Monotone(Abs(back - revs), Ratio(0.5, Abs(n)), c);
  }

  /** A distance comes back from its counts to within half a count's travel. */
  lemma DistanceRoundTrip(distance: real, p: Params)
    requires p.wheelCircumference > 0.0 && p.CountsPerRev() != 0.0
    ensures CountsForDistance(distance, p).Ok?
    ensures var back := DistanceForCounts(CountsForDistance(distance, p).value, p);
      back.Ok? && Abs(back.value - distance) <= HalfCount(p)
  {
    TravelError(distance, p);
  }

  // ----- A commanded twist seen through the encoders -----------------------------------

  /** Right and left wheel speeds; the driver's wheels turn against the direction of travel. */
  function TwistToWheelSpeeds(linearX: real, angularZ: real, trackWidth: real): (real, real) {
    ((linearX + Product(trackWidth, angularZ) / 2.0) * -1.0, (linearX - Product(trackWidth, angularZ) / 2.0) * -1.0)
  }

  datatype Quantized = Quantized(linear: real, angular: real, countsRight: int, countsLeft: int)

  function WheelCount(speed: real, dt: real, p: Params): int
    requires p.wheelCircumference > 0.0
  {
    Round(Product(Ratio(Product(speed, dt), p.wheelCircumference), p.CountsPerRev()))
  }

  /** Revolutions in the direction of travel. */
  function Roll(counts: int, p: Params): real {
    if p.CountsPerRev() != 0.0 then -Ratio(counts as real, p.CountsPerRev()) else 0.0
  }

  function LinearTravel(rollRight: real, rollLeft: real, p: Params): real {
    Product(rollRight + rollLeft, p.wheelCircumference) / 2.0
  }

  function Turn(rollRight: real, rollLeft: real, p: Params): real
    requires p.trackWidth != 0.0
  {
    Ratio(Product(rollRight - rollLeft, p.wheelCircumference), p.trackWidth)
  }

  function QuantizedTwist(linearX: real, angularZ: real, dt: real, p: Params): Result<Quantized, ModelError> {
    if p.wheelCircumference <= 0.0 then Err(CircumferenceNotPositive)
    else
      var (right, left) := TwistToWheelSpeeds(linearX, angularZ, p.trackWidth);
      var countsRight, countsLeft := WheelCount(right, dt, p), WheelCount(left, dt, p);
      var rollRight, rollLeft := Roll(countsRight, p), Roll(countsLeft, p);
      Ok(Quantized(
        LinearTravel(rollRight, rollLeft, p),
        if p.trackWidth != 0.0 then Turn(rollRight, rollLeft, p) else 0.0,
        countsRight, countsLeft))
  }

  /** The rolled distance of a wheel is its commanded travel to within half a count. */
  lemma RollError(speed: real, dt: real, p: Params)
    requires p.wheelCircumference > 0.0 && p.CountsPerRev() != 0.0
    ensures Abs(Product(Roll(WheelCount(speed, dt, p), p), p.wheelCircumference) - Product(-speed, dt)) <= HalfCount(p)
  {
    TravelError(Product(speed, dt), p);
    Distribute(Ratio(WheelCount(speed, dt, p) as real, p.CountsPerRev()), 0.0, p.wheelCircumference);
    Distribute(speed, 0.0, dt);
  }

  lemma WheelTravel(linearX: real, angularZ: real, dt: real, trackWidth: real)
    ensures var (right, left) := TwistToWheelSpeeds(linearX, angularZ, trackWidth);
      && Product(-right, dt) + Product(-left, dt) == 2.0 * Product(linearX, dt)
      && Product(-right, dt) - Product(-left, dt) == Product(Product(angularZ, dt), trackWidth)
  {
    var half := Product(trackWidth, angularZ) / 2.0;
    Distribute(linearX, half, dt);
    Distribute(half, -half, dt);
    ProductCommutes(trackWidth, angularZ);
    ProductAssociates(angularZ, trackWidth, dt);
    ProductCommutes(trackWidth, dt);
    ProductAssociates(angularZ, dt, trackWidth);
  }

  /**
    Quantised odometry of a twist: the distance errs by at most half a count's travel, the turn by a
    count's travel over the track.
  */
  lemma QuantizationIsBounded(linearX: real, angularZ: real, dt: real, p: Params)
    requires p.wheelCircumference > 0.0 && p.CountsPerRev() != 0.0
    ensures QuantizedTwist(linearX, angularZ, dt, p).Ok?
    ensures var q := QuantizedTwist(linearX, angularZ, dt, p).value;
      && Abs(q.linear - Product(linearX, dt)) <= HalfCount(p)
      && (p.trackWidth != 0.0 ==>
            Abs(q.angular - Product(angularZ, dt)) <= Ratio(2.0 * HalfCount(p), Abs(p.trackWidth)))
  {
    var c, w := p.wheelCircumference, p.trackWidth;
    var (right, left) := TwistToWheelSpeeds(linearX, angularZ, w);
    RollError(right, dt, p);
    RollError(left, dt, p);
    var rollRight, rollLeft := Roll(WheelCount(right, dt, p), p), Roll(WheelCount(left, dt, p), p);
    Distribute(rollRight, rollLeft, c);
    WheelTravel(linearX, angularZ, dt, w);
    if w != 0.0 {
      var turned, wanted := Product(rollRight - rollLeft, c), Product(Product(angularZ, dt), w);
      RatioBack(Product(angularZ, dt), w);
      RatioSum(turned, wanted, w);
      AbsRatio(turned - wanted, w);
      RatioMonotone(Abs(turned - wanted), 2.0 * HalfCount(p), Abs(w));
    }
  }

  /** The counts of a twist: each wheel's travel against the direction of driving, to the nearest count. */
  lemma TwistInRevolutions(linearX: real, angularZ: real, dt: real, p: Params, n: real)
    requires PerRevolution(p, n) && p.wheelCircumference > 0.0
    ensures QuantizedTwist(linearX, angularZ, dt, p).Ok?
    ensures var q, c, half := QuantizedTwist(linearX, angularZ, dt, p).value, p.wheelCircumference,
                              Product(p.trackWidth, angularZ) / 2.0;
      && Abs(Product(q.countsRight as real, c) + Product(Product(linearX + half, dt), n)) <= c / 2.0
      && Abs(Product(q.countsLeft as real, c) + Product(Product(linearX - half, dt), n)) <= c / 2.0
  {
    var half := Product(p.trackWidth, angularZ) / 2.0;
    var (right, left) := TwistToWheelSpeeds(linearX, angularZ, p.trackWidth);
    assert right == -(linearX + half) && left == -(linearX - half);
    RevolutionCounts(p, n);
    AgainstDriving(linearX + half, dt, p.wheelCircumference, n);
    AgainstDriving(linearX - half, dt, p.wheelCircumference, n);
  }

  lemma AgainstDriving(speed: real, dt: real, c: real, n: real)
    requires c > 0.0
    ensures var counts := Round(Product(Ratio(Product(-speed, dt), c), n));
      Abs(Product(counts as real, c) + Product(Product(speed, dt), n)) <= c / 2.0
  {
    RoundedTravel(Product(-speed, dt), c, n);
    Distribute(speed, 0.0, dt);
    Distribute(Product(speed, dt), 0.0, n);
  }
}
