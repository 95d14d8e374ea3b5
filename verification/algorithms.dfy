/** The second-generation navigation logic of the rover's main program:
    the obstacle detector, the obstacle encoder and the landmark encoder,
    with distances in whole centimetres and angles in degrees. */
module Algorithms {
  import opened Common
  import DataEncoder

  const DistanceEdge := 600
  const DistanceSafe := 400
  const DistanceDanger := 200
  const AngleDanger: real := 17.458
  /** The landmark encoder's half-width of the straight-ahead cone. */
  const Threshold := 3

  predicate InBand(theta: real)
  {
    -AngleDanger <= theta && theta <= AngleDanger
  }

  /** `isObstacleDetected(d, theta, flag)`: only while no obstacle is being
      handled, between the safe and the edge distance, inside the band. */
  predicate IsObstacleDetected(d: int, theta: real, flag: char)
    ensures flag != 'N' ==> !IsObstacleDetected(d, theta, flag)
    ensures IsObstacleDetected(d, theta, flag) <==>
      flag == 'N' && (EncodeObstacleAvoidance(d, theta).Some? || (DistanceEdge - 50 <= d <= DistanceEdge && InBand(theta)))
  {
    flag == 'N' && DistanceSafe < d && d <= DistanceEdge && -AngleDanger <= theta && theta <= AngleDanger
  }

  /** `encodeObstacleAvoidance(d, theta)`: turn away from an obstacle
      between 400 and 550 cm inside the band; Python's implicit `None`
      everywhere else. There is no stop code. */
  function EncodeObstacleAvoidance(d: int, theta: real): (r: Option<char>)
    ensures r.Some? <==> DistanceSafe < d < DistanceEdge - 50 && InBand(theta)
    ensures r == Some('L') <==> DistanceSafe < d < DistanceEdge - 50 && 0.0 < theta <= AngleDanger
    ensures r == Some('R') <==> DistanceSafe < d < DistanceEdge - 50 && -AngleDanger <= theta <= 0.0
  {
    if DistanceSafe < d && d < DistanceEdge - 50 then
      if -AngleDanger <= theta && theta <= AngleDanger then
        if theta > 0.0 then Some('L')
        else Some('R')
      else None
    else None
  }

  /** Whatever the encoder turns away from, the detector reports. */
  lemma EncodedIsDetected(d: int, theta: real)
    requires EncodeObstacleAvoidance(d, theta).Some?
    ensures IsObstacleDetected(d, theta, 'N')
  {
  }

  /** Between 550 and 600 cm an obstacle in the band is detected but gets
      no turn code. */
  lemma DetectedButNotEncoded(d: int, theta: real)
    requires 550 <= d <= 600 && InBand(theta)
    ensures IsObstacleDetected(d, theta, 'N')
    ensures EncodeObstacleAvoidance(d, theta).None?
  {
  }

  /** Where it answers at all, the second-generation obstacle encoder turns
      the same way as the first. */
  lemma AgreesWithFirstGeneration(d: int, theta: real)
    requires EncodeObstacleAvoidance(d, theta).Some?
    ensures EncodeObstacleAvoidance(d, theta).value == DataEncoder.EncodeObstacle(d as real, theta)
  {
  }

  // ---------------------------------------------------------------------
  // Landmark honing.

  /** A Python number: the angle reaches the encoder as a float in the main
      loop, but the function is also meaningful for ints, and line 86
      behaves differently for the two. */
  datatype Num = IntNum(i: int) | FloatNum(f: real)

  function Value(x: Num): real
  {
    match x
    case IntNum(i) => i as real
    case FloatNum(f) => f
  }

  /** Python's `-3 & t` on an int: two's-complement `-3` has every bit set
      except bit 1, so the result is `t` with bit 1 cleared. */
  function MinusThreeAnd(t: int): (r: int)
    ensures r == t || r == t - 2
    ensures r == t <==> (t / 2) % 2 == 0
  {
    t - 2 * ((t / 2) % 2)
  }

  function Abs(x: int): nat
  {
    if x < 0 then -x else x
  }

  /** Python's `&` on ints, bit by bit from the least significant end of
      the infinite two's-complement expansion; `0` and `-1` are the
      expansions that are constant from here on. */
  function PyAnd(a: int, b: int): int
    decreases Abs(a) + Abs(b)
  {
    if (a == 0 || a == -1) && (b == 0 || b == -1) then
      (if a == -1 && b == -1 then -1 else 0)
    else
      2 * PyAnd(a / 2, b / 2) + (a % 2) * (b % 2)
  }

  /** `-1` has every bit set, so it is the identity of `&`. */
  lemma {:induction false} AndMinusOne(b: int)
    ensures PyAnd(-1, b) == b
    decreases Abs(b)
  {
    if b != 0 && b != -1 {
      AndMinusOne(b / 2);
    }
  }

  /** The closed form above is Python's `-3 & t`. */
  lemma MinusThreeAndIsPyAnd(t: int)
    ensures PyAnd(-3, t) == MinusThreeAnd(t)
  {
    var u := t / 2;
    AndMinusOne(u / 2);
    assert PyAnd(-2, u) == 2 * PyAnd(-1, u / 2);
    assert PyAnd(-3, t) == 2 * PyAnd(-2, u) + t % 2;
  }

  /** `theta >= -threshold & theta <= threshold` parses as the chained
      comparison `theta >= (-threshold & theta) <= threshold`; on a float
      `&` raises `TypeError`. */
  function MiddleTest(theta: Num): (r: Result<bool>)
    ensures theta.FloatNum? <==> r == Err(TypeError)
  {
    match theta
    case FloatNum(_) => Err(TypeError)
    case IntNum(t) =>
      var masked := MinusThreeAnd(t);
      Ok(t >= masked && masked <= Threshold)
  }

  /** For an int angle that was neither above 3 nor below -3 the test on
      line 86 always passes. */
  lemma MiddleTestHolds(t: int)
    requires -Threshold <= t <= Threshold
    ensures MiddleTest(IntNum(t)) == Ok(true)
  {
  }

  /** `encodeLandmarkHoning(d, theta)`: arrived when close; between 200 and
      600 cm turn toward the landmark outside the 3-degree cone and go
      straight inside it; beyond 600 cm no change. */
  function EncodeLandmarkHoning(d: int, theta: Num): (r: Result<char>)
    ensures d <= DistanceDanger ==> r == Ok('A')
    ensures d > DistanceEdge ==> r == Ok('O')
    ensures DistanceDanger < d <= DistanceEdge && Value(theta) > Threshold as real ==> r == Ok('R')
    ensures DistanceDanger < d <= DistanceEdge && Value(theta) < -Threshold as real ==> r == Ok('L')
    ensures DistanceDanger < d <= DistanceEdge && -Threshold as real <= Value(theta) <= Threshold as real ==>
      r == (if theta.IntNum? then Ok('N') else Err(TypeError))
    ensures r.Ok? ==> r.value in {'A', 'R', 'L', 'N', 'O'}
  {
    if d <= DistanceDanger then Ok('A')
    else if DistanceDanger < d && d <= DistanceEdge then
      if Value(theta) > Threshold as real then Ok('R')
      else if Value(theta) < -Threshold as real then Ok('L')
      else
        match MiddleTest(theta)
        case Err(e) => Err(e)
        case Ok(passed) => Ok(if passed then 'N' else 'O')
    else Ok('O')
  }

  /** The arrival code does not depend on the angle, or on its type. */
  lemma ArrivalIgnoresAngle(d: int, t1: Num, t2: Num)
    requires d <= DistanceDanger
    ensures EncodeLandmarkHoning(d, t1) == EncodeLandmarkHoning(d, t2) == Ok('A')
  {
  }
}
