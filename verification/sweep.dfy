/** The scan loop of the V9 test script: after a reading at the high end of
    the sweep, readings are taken until the yaw passes the low end, and a
    reading is kept only when its angle differs from the last kept one
    (`skip`). */
module Sweep {

  /** `skip(scanAngle, temp)`: `True` exactly when the new angle differs
      from the last kept one. The function's own assignment to `temp` is
      local to it, so the caller's `temp` is unaffected. */
  function Skip(angle: real, temp: real): (r: bool)
    ensures r <==> angle != temp
  {
    if angle == temp then false else true
  }

  /** Python's `int()` of a float: truncation toward zero. */
  function Trunc(x: real): (r: int)
    ensures x >= 0.0 ==> 0 <= r && r as real <= x < r as real + 1.0
    ensures x < 0.0 ==> r <= 0 && r as real - 1.0 < x <= r as real
  {
    if x >= 0.0 then x.Floor else -((-x).Floor)
  }

  /** The inner `while int(yawAngle) > -Low0 + 1` condition. */
  predicate Sweeping(yaw: real, low: int)
  {
    Trunc(yaw) > -low + 1
  }

  /** The angle of the reading before reading `i`; the trigger reading that
      started the sweep comes before the first one. */
  function PrevAngle(trigger: real, readings: seq<(int, real)>, i: nat): real
    requires i <= |readings|
  {
    if i == 0 then trigger else readings[i - 1].1
  }

  /** Reference definition of what a sweep keeps: every reading whose angle
      differs from the angle of the reading just before it, in order. */
  function Changes(trigger: real, readings: seq<(int, real)>): seq<(int, real)>
    decreases |readings|
  {
    if |readings| == 0 then []
    else
      var n := |readings| - 1;
      Changes(trigger, readings[..n])
        + (if readings[n].1 != PrevAngle(trigger, readings, n) then [readings[n]] else [])
  }

  /** The last kept angle is the angle of the last reading: a reading that
      is dropped repeats the angle before it. */
  lemma {:induction false} ChangesLast(trigger: real, readings: seq<(int, real)>)
    ensures var c := Changes(trigger, readings);
      (if |c| == 0 then trigger else c[|c| - 1].1) == PrevAngle(trigger, readings, |readings|)
    decreases |readings|
  {
    if |readings| > 0 {
      var n := |readings| - 1;
      var init := readings[..n];
      ChangesLast(trigger, init);
      assert PrevAngle(trigger, init, n) == PrevAngle(trigger, readings, n);
    }
  }

  /** A sweep never keeps two equal angles in a row, and never keeps the
      trigger angle as its first sample. */
  lemma {:induction false} ChangesNoRepeats(trigger: real, readings: seq<(int, real)>)
    ensures var c := Changes(trigger, readings);
      && (|c| > 0 ==> c[0].1 != trigger)
      && (forall k :: 0 <= k < |c| - 1 ==> c[k].1 != c[k + 1].1)
    decreases |readings|
  {
    if |readings| > 0 {
      var n := |readings| - 1;
      var init := readings[..n];
      ChangesNoRepeats(trigger, init);
      ChangesLast(trigger, init);
      assert PrevAngle(trigger, init, n) == PrevAngle(trigger, readings, n);
    }
  }

  /** Every kept sample is one of the readings. */
  lemma {:induction false} ChangesFromReadings(trigger: real, readings: seq<(int, real)>)
    ensures forall k :: 0 <= k < |Changes(trigger, readings)| ==> Changes(trigger, readings)[k] in readings
    decreases |readings|
  {
    if |readings| > 0 {
      var n := |readings| - 1;
      var init := readings[..n];
      ChangesFromReadings(trigger, init);
      forall x | x in init
        ensures x in readings
      {
      }
    }
  }

  /** The inner scan loop (`temp = yawAngle`, then read while sweeping and
      append on `skip`). `readings` are the decoded `(lastRaw, yawAngle)`
      pairs in the order the sensor sends them; the loop also ends when
      they run out. `used` is how many were read. */
  method Scan(trigger: real, low: int, readings: seq<(int, real)>)
    returns (scanDist: seq<int>, scanAngle: seq<real>, numPts: nat, used: nat)
    ensures used <= |readings|
    ensures numPts == |scanDist| == |scanAngle|
    ensures var c := Changes(trigger, readings[..used]);
      |c| == numPts && forall k :: 0 <= k < numPts ==> c[k] == (scanDist[k], scanAngle[k])
    ensures forall i :: 0 <= i < used ==> Sweeping(PrevAngle(trigger, readings, i), low)
    ensures used < |readings| ==> !Sweeping(PrevAngle(trigger, readings, used), low)
    ensures numPts > 0 ==> scanAngle[0] != trigger
    ensures forall k :: 0 <= k < numPts - 1 ==> scanAngle[k] != scanAngle[k + 1]
  {
    scanDist, scanAngle, numPts := [], [], 0;
    var temp := trigger;
    var yaw := trigger;
    used := 0;
    while Sweeping(yaw, low) && used < |readings|
      invariant used <= |readings|
      invariant yaw == temp == PrevAngle(trigger, readings, used)
      invariant numPts == |scanDist| == |scanAngle|
      invariant var c := Changes(trigger, readings[..used]);
        |c| == numPts && forall k :: 0 <= k < numPts ==> c[k] == (scanDist[k], scanAngle[k])
      invariant forall i :: 0 <= i < used ==> Sweeping(PrevAngle(trigger, readings, i), low)
    {
      var lastRaw := readings[used].0;
      yaw := readings[used].1;
      assert readings[..used + 1][..used] == readings[..used];
      assert PrevAngle(trigger, readings[..used + 1], used) == temp;
      if Skip(yaw, temp) {
        scanDist := scanDist + [lastRaw];
        scanAngle := scanAngle + [yaw];
        temp := yaw;
        numPts := numPts + 1;
      }
      used := used + 1;
    }
    ChangesNoRepeats(trigger, readings[..used]);
  }
}
