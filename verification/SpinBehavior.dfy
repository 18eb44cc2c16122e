/** The spin behaviour: turn by a commanded angle, watching the accumulated yaw. */
module SpinBehavior {
  import opened RealArithmetic
  import opened Wrappers
  import opened YawUnwrapping

  datatype Status = Succeeded | Running | Failed

  datatype Code = NoError | TfError | Timeout | CollisionAhead

  const TOLERANCE := 0.000001

  /** The yaw change simulated after c cycles. */
  function Ahead(velocity: real, frequency: real, c: nat): real
    requires frequency > 0.0
  {
    Product(velocity, Ratio(c as real, frequency))
  }

  lemma AheadGrows(velocity: real, frequency: real, i: nat, c: nat)
    requires frequency > 0.0 && i <= c
    ensures Abs(Ahead(velocity, frequency, i)) <= Abs(Ahead(velocity, frequency, c))
  {
    var a, b := Ratio(i as real, frequency), Ratio(c as real, frequency);
    RatioMonotone(0.0, i as real, frequency);
    RatioMonotone(i as real, c as real, frequency);
    assert Ratio(0.0, frequency) == 0.0;
    AbsProduct(velocity, a);
    AbsProduct(velocity, b);
    if velocity != 0.0 {
      Monotone(a, b, Abs(velocity));
      ProductCommutes(a, Abs(velocity));
      ProductCommutes(b, Abs(velocity));
    }
  }

  /** Every heading simulated is free, as long as the simulated change is below the yaw already turned. */
  ghost predicate ClearAhead(
    velocity: real, theta: real, turned: real, frequency: real, cycles: nat, free: real -> bool)
    requires frequency > 0.0
  {
    forall c: nat :: c < cycles && Abs(Ahead(velocity, frequency, c)) < Abs(turned)
      ==> free(theta + Ahead(velocity, frequency, c))
  }

  /** The heading after c cycles at that velocity. */
  function HeadingAfter(velocity: real, theta: real, frequency: real, c: nat): real
    requires frequency > 0.0
  {
    theta + velocity * (c as real / frequency)
  }

  /** Every heading of the window is free. */
  ghost predicate WindowFree(velocity: real, theta: real, frequency: real, cycles: nat, free: real -> bool)
    requires frequency > 0.0
  {
    forall c: nat :: c < cycles ==> free(HeadingAfter(velocity, theta, frequency, c))
  }

  /**
    The look-ahead vouches for the whole window, whatever is in the way, exactly when the change simulated for
    its last cycle is below the yaw already turned.
  */
  lemma LookAheadIsWhole(velocity: real, theta: real, turned: real, frequency: real, cycles: nat)
    requires frequency > 0.0
    ensures (forall free: real -> bool ::
               ClearAhead(velocity, theta, turned, frequency, cycles, free)
               ==> WindowFree(velocity, theta, frequency, cycles, free))
       <==> cycles == 0 || Abs(velocity * ((cycles - 1) as real / frequency)) < Abs(turned)
  {
    if cycles > 0 {
      var last := Ahead(velocity, frequency, cycles - 1);
      if Abs(last) < Abs(turned) {
        forall c: nat | c < cycles
          ensures Abs(Ahead(velocity, frequency, c)) < Abs(turned)
          ensures HeadingAfter(velocity, theta, frequency, c) == theta + Ahead(velocity, frequency, c)
        {
          AheadGrows(velocity, frequency, c, cycles - 1);
        }
      } else {
        var blocked := (heading: real) => heading != theta + last;
        assert ClearAhead(velocity, theta, turned, frequency, cycles, blocked);
        assert !blocked(HeadingAfter(velocity, theta, frequency, cycles - 1));
        assert !WindowFree(velocity, theta, frequency, cycles, blocked);
      }
    }
  }

  /** The rotational speed with that much left to turn. */
  function Speed(sqrt: real -> real, accLim: real, minVel: real, maxVel: real, remaining: real): real {
    Min(Max(sqrt(2.0 * accLim * remaining), minVel), maxVel)
  }

  /**
    The speed is the one from which the robot can just brake within what is left to turn, unless that is below
    the least or above the greatest speed.
  */
  lemma SpeedAllowsBraking(sqrt: real -> real, accLim: real, minVel: real, maxVel: real, remaining: real)
    requires 0.0 <= minVel <= maxVel && accLim >= 0.0 && remaining >= 0.0
    requires var root := sqrt(2.0 * accLim * remaining); root >= 0.0 && Product(root, root) == 2.0 * accLim * remaining
    ensures var v := Speed(sqrt, accLim, minVel, maxVel, remaining);
      && minVel <= v <= maxVel
      && (v > minVel ==> Product(v, v) <= 2.0 * accLim * remaining)
      && (minVel < v < maxVel ==> Product(v, v) == 2.0 * accLim * remaining)
      && (Product(minVel, minVel) <= 2.0 * accLim * remaining <= Product(maxVel, maxVel) ==>
            Product(v, v) == 2.0 * accLim * remaining)
      && (2.0 * accLim * remaining < Product(minVel, minVel) ==> v == minVel)
      && (2.0 * accLim * remaining > Product(maxVel, maxVel) ==> v == maxVel)
  {
    var root := sqrt(2.0 * accLim * remaining);
    SquareOrder(root, minVel);
    SquareOrder(minVel, root);
    SquareOrder(root, maxVel);
    SquareOrder(maxVel, root);
  }

  class Spin {
    const pi: real
    const minRotationalVel: real
    const maxRotationalVel: real
    const rotationalAccLim: real
    const cycleFrequency: real
    const maxCycleCount: nat
    const sqrt: real -> real

    var cmdYaw: real
    var prevYaw: real
    var relativeYaw: real
    var endTime: real
    var commandTimeAllowance: real

    // The yaw samples taken since the behaviour was started.
    ghost var samples: seq<real>

    ghost predicate Valid()
      reads this
    {
      && pi > 0.0 && cycleFrequency > 0.0
      && samples != []
      && prevYaw == samples[|samples| - 1]
      && relativeYaw == Accumulated(pi, samples)
    }

    constructor (pi: real, minVel: real, maxVel: real, accLim: real, frequency: real, cycles: nat, sqrt: real -> real)
      requires pi > 0.0 && frequency > 0.0
      ensures Valid() && this.pi == pi
    {
      this.pi, minRotationalVel, maxRotationalVel, rotationalAccLim := pi, minVel, maxVel, accLim;
      cycleFrequency, maxCycleCount, this.sqrt := frequency, cycles, sqrt;
      cmdYaw, prevYaw, relativeYaw, endTime, commandTimeAllowance := 0.0, 0.0, 0.0, 0.0, 0.0;
      samples := [0.0];
    }

    method OnRun(currentYaw: Option<real>, targetYaw: real, timeAllowance: real, now: real)
      returns (status: Status, code: Code)
      requires Valid()
      modifies this
      ensures Valid()
      ensures currentYaw.None? ==> (status, code) == (Failed, TfError) && samples == old(samples)
      ensures currentYaw.Some? ==>
        && (status, code) == (Succeeded, NoError)
        && samples == [currentYaw.value] && relativeYaw == 0.0
        && cmdYaw == targetYaw && commandTimeAllowance == timeAllowance && endTime == now + timeAllowance
    {
      if currentYaw.None? {
        return Failed, TfError;
      }
      prevYaw := currentYaw.value;
      relativeYaw := 0.0;
      samples := [currentYaw.value];
      cmdYaw := targetYaw;
      commandTimeAllowance := timeAllowance;
      endTime := now + commandTimeAllowance;
      return Succeeded, NoError;
    }

    /** Look ahead while the simulated change stays below the yaw already turned. */
    method IsCollisionFree(velocity: real, theta: real, free: real -> bool) returns (clear: bool)
      requires cycleFrequency > 0.0
      ensures clear <==> ClearAhead(velocity, theta, relativeYaw, cycleFrequency, maxCycleCount, free)
    {
      var cycleCount := 0;
      while cycleCount < maxCycleCount
        invariant 0 <= cycleCount <= maxCycleCount
        invariant forall c: nat :: c < cycleCount ==> free(theta + Ahead(velocity, cycleFrequency, c))
      {
        var simPositionChange := velocity * (cycleCount as real / cycleFrequency);
        assert simPositionChange == Ahead(velocity, cycleFrequency, cycleCount);
        var simTheta := theta + simPositionChange;
        if Abs(relativeYaw) - Abs(simPositionChange) <= 0.0 {
          forall c: nat | c >= cycleCount
            ensures Abs(Ahead(velocity, cycleFrequency, c)) >= Abs(relativeYaw)
          {
            AheadGrows(velocity, cycleFrequency, cycleCount, c);
          }
          return true;
        }
        if !free(simTheta) {
          assert !free(theta + Ahead(velocity, cycleFrequency, cycleCount));
          return false;
        }
        cycleCount := cycleCount + 1;
      }
      return true;
    }

    /** One control cycle; velocity is what is commanded when the status is Running. */
    method OnCycleUpdate(now: real, currentYaw: Option<real>, free: real -> bool)
      returns (status: Status, code: Code, velocity: real)
      requires Valid()
      modifies this`prevYaw, this`relativeYaw, this`samples
      ensures Valid()
      ensures var timedOut := endTime - now < 0.0 && commandTimeAllowance > 0.0;
        if timedOut || currentYaw.None? then
          (status, code) == (Failed, if timedOut then Timeout else TfError) && samples == old(samples)
        else
          && samples == old(samples) + [currentYaw.value]
          && relativeYaw == Accumulated(pi, samples)
          && var remaining := Abs(cmdYaw) - Abs(relativeYaw);
          && var turn := CopySign(Speed(sqrt, rotationalAccLim, minRotationalVel, maxRotationalVel, remaining), cmdYaw);
          && var clear := ClearAhead(turn, currentYaw.value, relativeYaw, cycleFrequency, maxCycleCount, free);
            if remaining < TOLERANCE then (status, code, velocity) == (Succeeded, NoError, 0.0)
            else if clear then (status, code, velocity) == (Running, NoError, turn)
            else (status, code, velocity) == (Failed, CollisionAhead, 0.0)
    {
      velocity := 0.0;
      if endTime - now < 0.0 && commandTimeAllowance > 0.0 {
        return Failed, Timeout, 0.0;
      }
      if currentYaw.None? {
        return Failed, TfError, 0.0;
      }
      var deltaYaw := currentYaw.value - prevYaw;
      if Abs(deltaYaw) > pi {
        deltaYaw := CopySign(2.0 * pi - Abs(deltaYaw), prevYaw);
      }
      relativeYaw := relativeYaw + deltaYaw;
      prevYaw := currentYaw.value;
      samples := samples + [currentYaw.value];
      assert samples[..|samples| - 1] == old(samples);

      var remainingYaw := Abs(cmdYaw) - Abs(relativeYaw);
      if remainingYaw < TOLERANCE {
        return Succeeded, NoError, 0.0;
      }
      var vel := sqrt(2.0 * rotationalAccLim * remainingYaw);
      vel := Min(Max(vel, minRotationalVel), maxRotationalVel);
      assert vel == Speed(sqrt, rotationalAccLim, minRotationalVel, maxRotationalVel, remainingYaw);
      velocity := CopySign(vel, cmdYaw);
      var clear := IsCollisionFree(velocity, currentYaw.value, free);
      if !clear {
        assert !ClearAhead(velocity, currentYaw.value, relativeYaw, cycleFrequency, maxCycleCount, free);
        return Failed, CollisionAhead, 0.0;
      }
      return Running, NoError, velocity;
    }
  }

  /**
    With less than half a turn per cycle the completion test is about the real rotation: the
    behaviour stops as soon as, and not before, it has turned the commanded amount to within the tolerance.
  */
  lemma CompletionIsRealRotation(pi: real, yaws: seq<real>, headings: seq<real>, cmdYaw: real)
    requires pi > 0.0 && yaws != [] && Tracks(pi, yaws, headings) && SlowEnough(pi, headings)
    ensures Abs(cmdYaw) - Abs(Accumulated(pi, yaws)) < TOLERANCE
       <==> Abs(headings[|headings| - 1] - headings[0]) > Abs(cmdYaw) - 0.000001
  {
    AccumulatedIsTrueRotation(pi, yaws, headings);
  }

  /** Three samples a third of a turn apart: the sum passes half a turn although every sample is wrapped. */
  lemma LongTurnIsCounted(pi: real)
    requires pi > 0.0
    ensures Accumulated(pi, [0.0, 2.0 * pi / 3.0, -2.0 * pi / 3.0, 0.0]) == 2.0 * pi
  {
    var a := 2.0 * pi / 3.0;
    var two, three, four := [0.0, a], [0.0, a, -a], [0.0, a, -a, 0.0];
    assert Delta(pi, 0.0, a) == a && Delta(pi, a, -a) == a && Delta(pi, -a, 0.0) == a;
    assert two[..1] == [0.0] && Accumulated(pi, two) == a;
    assert three[..2] == two && Accumulated(pi, three) == a + a;
    assert four[..3] == three && Accumulated(pi, four) == a + a + a;
    assert -2.0 * pi / 3.0 == -a;
  }
}
