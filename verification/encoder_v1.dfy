/** The first-generation encoders: `encodeObstacle` of the data encoder
    script and `encodeLandmarkHoning` of the landmark-honing script. Both
    map a distance and an angle to one command character for the motor
    controller. */
module DataEncoder {

  const DistanceEdge: real := 600.0
  const DistanceDanger: real := 200.0
  const AngleDanger: real := 17.458

  /** `-ANGLE_DANGER <= theta and theta <= ANGLE_DANGER`. */
  predicate InBand(theta: real)
  {
    -AngleDanger <= theta && theta <= AngleDanger
  }

  /** `encodeObstacle(d, theta)`: stop for a close obstacle in the band,
      turn away from a nearer-than-edge obstacle in the band, otherwise no
      obstacle. */
  function EncodeObstacle(d: real, theta: real): (r: char)
    ensures r in {'S', 'L', 'R', 'N'}
    ensures r == 'S' <==> d <= DistanceDanger && InBand(theta)
    ensures r == 'L' <==> DistanceDanger < d <= DistanceEdge && InBand(theta) && theta > 0.0
    ensures r == 'R' <==> DistanceDanger < d <= DistanceEdge && InBand(theta) && theta <= 0.0
    ensures r == 'N' <==> !InBand(theta) || d > DistanceEdge
  {
    if d <= DistanceDanger && -AngleDanger <= theta && theta <= AngleDanger then 'S'
    else if DistanceDanger < d && d <= DistanceEdge && -AngleDanger <= theta && theta <= AngleDanger then
      if theta > 0.0 then 'L' else 'R'
    else 'N'
  }

  /** The angle matters only through its sign and whether it is in the
      band. */
  lemma ObstacleDependsOnSignAndBand(d: real, t1: real, t2: real)
    requires (t1 > 0.0 <==> t2 > 0.0) && (InBand(t1) <==> InBand(t2))
    ensures EncodeObstacle(d, t1) == EncodeObstacle(d, t2)
  {
  }
}

module LandmarkHoningV1 {

  /** Eight and two feet, in centimetres. */
  const DistanceEdge: real := 243.84
  const DistanceDanger: real := 81.28
  const AngleDanger: real := 17.458

  /** `encodeLandmarkHoning(d, theta)` of the landmark-honing script:
      arrived when close, otherwise turn toward a landmark in the band up to
      the edge distance, otherwise keep going. */
  function EncodeLandmarkHoning(d: real, theta: real): (r: char)
    ensures r in {'A', 'R', 'L', 'N'}
    ensures r == 'A' <==> d <= DistanceDanger
    ensures r == 'R' <==> DistanceDanger < d <= DistanceEdge && 0.0 < theta <= AngleDanger
    ensures r == 'L' <==> DistanceDanger < d <= DistanceEdge && -AngleDanger <= theta <= 0.0
    ensures r == 'N' <==> d > DistanceEdge || (d > DistanceDanger && (theta < -AngleDanger || theta > AngleDanger))
  {
    if d <= DistanceDanger then 'A'
    else if DistanceDanger < d && d <= DistanceEdge && -AngleDanger <= theta && theta <= AngleDanger then
      if theta > 0.0 then 'R' else 'L'
    else 'N'
  }

  /** The first landmark encoder never answers with the "no change" code
      of the later one. */
  lemma NeverNoChange(d: real, theta: real)
    ensures EncodeLandmarkHoning(d, theta) != 'O'
  {
  }
}
