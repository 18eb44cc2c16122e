/** Adding up wrapped yaw samples so that the sum follows the true rotation. pi is any positive real. */
module YawUnwrapping {
  import opened RealArithmetic

  /** The magnitude of a with the sign of s. */
  function CopySign(a: real, s: real): real {
    if s < 0.0 then -Abs(a) else Abs(a)
  }

  predicate Wrapped(pi: real, yaw: real) {
    -pi <= yaw <= pi
  }

  function Turns(pi: real, k: int): real {
    Product(k as real, 2.0 * pi)
  }

  /** The sample is the heading less some whole turns. */
  ghost predicate Samples(pi: real, yaw: real, heading: real) {
    Wrapped(pi, yaw) && exists k: int :: heading - yaw == Turns(pi, k)
  }

  /** The change the source adds for one cycle. */
  function Delta(pi: real, prev: real, current: real): real {
    var delta := current - prev;
    if Abs(delta) > pi then CopySign(2.0 * pi - Abs(delta), prev) else delta
  }

  function Accumulated(pi: real, yaws: seq<real>): real
    decreases |yaws|
  {
    if |yaws| <= 1 then 0.0
    else Accumulated(pi, yaws[..|yaws| - 1]) + Delta(pi, yaws[|yaws| - 2], yaws[|yaws| - 1])
  }

  lemma TurnsFar(pi: real, k: int)
    requires pi > 0.0
    ensures k == 0 ==> Turns(pi, k) == 0.0
    ensures k == 1 ==> Turns(pi, k) == 2.0 * pi
    ensures k == -1 ==> Turns(pi, k) == -2.0 * pi
    ensures k >= 2 ==> Turns(pi, k) >= 4.0 * pi
    ensures k <= -2 ==> Turns(pi, k) <= -4.0 * pi
  {
    Monotone(2.0, k as real, 2.0 * pi);
    Monotone(k as real, -2.0, 2.0 * pi);
    assert Product(2.0, 2.0 * pi) == 4.0 * pi && Product(-2.0, 2.0 * pi) == -4.0 * pi;
  }

  lemma TurnsAdd(pi: real, j: int, k: int)
    ensures Turns(pi, j) + Turns(pi, k) == Turns(pi, j + k)
    ensures Turns(pi, j) - Turns(pi, k) == Turns(pi, j - k)
  {
    Distribute(j as real, k as real, 2.0 * pi);
  }

  /** The folded difference is at most half a turn and differs from the plain one by whole turns. */
  lemma DeltaFolds(pi: real, prev: real, current: real) returns (k: int)
    requires pi > 0.0 && Wrapped(pi, prev) && Wrapped(pi, current)
    ensures -pi <= Delta(pi, prev, current) <= pi
    ensures Delta(pi, prev, current) == current - prev + Turns(pi, k)
    ensures Abs(current - prev) <= pi ==> k == 0
  {
    var delta := current - prev;
    k := if delta > pi then -1 else if delta < -pi then 1 else 0;
    TurnsFar(pi, k);
  }

  /**
    One cycle adds the true rotation exactly when that rotation is less than half a turn, or half a turn
    seen without wrapping.
  */
  lemma DeltaIsTrueRotation(pi: real, prev: real, current: real, before: real, after: real)
    requires pi > 0.0 && Samples(pi, prev, before) && Samples(pi, current, after)
    ensures var turn := after - before;
      Delta(pi, prev, current) == turn <==> Abs(turn) < pi || (Abs(turn) == pi && current - prev == turn)
  {
    var turn := after - before;
    var m: int :| before - prev == Turns(pi, m);
    var n: int :| after - current == Turns(pi, n);
    var k := DeltaFolds(pi, prev, current);
    TurnsAdd(pi, n, m);
    TurnsAdd(pi, k, n - m);
    var whole := k - (n - m);
    TurnsAdd(pi, k, n - m);
    assert Delta(pi, prev, current) - turn == Turns(pi, whole);
    TurnsFar(pi, whole);
    TurnsFar(pi, n - m);
  }

  ghost predicate Tracks(pi: real, yaws: seq<real>, headings: seq<real>) {
    |yaws| == |headings| && forall i :: 0 <= i < |yaws| ==> Samples(pi, yaws[i], headings[i])
  }

  ghost predicate SlowEnough(pi: real, headings: seq<real>) {
    forall i :: 0 <= i < |headings| - 1 ==> Abs(headings[i + 1] - headings[i]) < pi
  }

  /** With less than half a turn between samples the sum is the true rotation since the first one. */
  lemma {:induction false} AccumulatedIsTrueRotation(pi: real, yaws: seq<real>, headings: seq<real>)
    requires pi > 0.0 && yaws != [] && Tracks(pi, yaws, headings) && SlowEnough(pi, headings)
    ensures Accumulated(pi, yaws) == headings[|headings| - 1] - headings[0]
    decreases |yaws|
  {
    var n := |yaws|;
    if n > 1 {
      assert SlowEnough(pi, headings[..n - 1]);
      AccumulatedIsTrueRotation(pi, yaws[..n - 1], headings[..n - 1]);
      assert Abs(headings[n - 2 + 1] - headings[n - 2]) < pi;
      DeltaIsTrueRotation(pi, yaws[n - 2], yaws[n - 1], headings[n - 2], headings[n - 1]);
    }
  }

  /** However fast the robot turns, the sum is right up to whole turns. */
  lemma {:induction false} AccumulatedUpToTurns(pi: real, yaws: seq<real>, headings: seq<real>) returns (k: int)
    requires pi > 0.0 && yaws != [] && Tracks(pi, yaws, headings)
    ensures Accumulated(pi, yaws) == headings[|headings| - 1] - headings[0] + Turns(pi, k)
    decreases |yaws|
  {
    var n := |yaws|;
    if n == 1 {
      k := 0;
      TurnsFar(pi, 0);
    } else {
      var j := AccumulatedUpToTurns(pi, yaws[..n - 1], headings[..n - 1]);
      var d := DeltaFolds(pi, yaws[n - 2], yaws[n - 1]);
      assert Samples(pi, yaws[n - 2], headings[n - 2]) && Samples(pi, yaws[n - 1], headings[n - 1]);
      var m: int :| headings[n - 2] - yaws[n - 2] == Turns(pi, m);
      var q: int :| headings[n - 1] - yaws[n - 1] == Turns(pi, q);
      k := j + d + m - q;
      TurnsAdd(pi, j, d);
      TurnsAdd(pi, j + d, m);
      TurnsAdd(pi, j + d + m, q);
    }
  }
}
