/** `ObjectDetect` of the object-detection script: keep the samples of a
    sweep inside the distance window, close the list with a sentinel, split
    it into objects wherever the angle jumps by 5 degrees or more, and
    characterise every object by its mean distance, centre angle and
    width. */
module Segment {
  import opened Common

  const DegToRad: real := 3.14159 / 180.0
  /** An angle step of at least this many degrees ends an object. */
  const GapAngle: real := 5.0
  /** The angle of the end-of-scan sentinel. */
  const SentinelAngle: real := 270.0

  // ---------------------------------------------------------------------
  // Detect.

  predicate InRange(d: int, minRange: int, maxRange: int)
  {
    d <= maxRange && d >= minRange
  }

  /** The samples `(distance, angle)` of the sweep inside the window, in
      their original order (`objDist`, `objAngle`). */
  function Detect(scan: seq<(int, real)>, minRange: int, maxRange: int): (r: seq<(int, real)>)
    ensures |r| <= |scan|
    ensures forall k :: 0 <= k < |r| ==> InRange(r[k].0, minRange, maxRange)
    ensures |r| == 0 <==> forall k :: 0 <= k < |scan| ==> !InRange(scan[k].0, minRange, maxRange)
    decreases |scan|
  {
    if |scan| == 0 then []
    else
      var n := |scan| - 1;
      Detect(scan[..n], minRange, maxRange)
        + (if InRange(scan[n].0, minRange, maxRange) then [scan[n]] else [])
  }

  /** A sample is detected exactly when it is in the sweep and in range. */
  lemma {:induction false} DetectMembers(scan: seq<(int, real)>, minRange: int, maxRange: int)
    ensures forall x :: x in Detect(scan, minRange, maxRange) <==> x in scan && InRange(x.0, minRange, maxRange)
    decreases |scan|
  {
    if |scan| > 0 {
      var n := |scan| - 1;
      DetectMembers(scan[..n], minRange, maxRange);
      assert scan == scan[..n] + [scan[n]];
    }
  }

  function Dists(samples: seq<(int, real)>): (r: seq<int>)
    ensures |r| == |samples| && forall k :: 0 <= k < |r| ==> r[k] == samples[k].0
  {
    seq(|samples|, k requires 0 <= k < |samples| => samples[k].0)
  }

  function Angles(samples: seq<(int, real)>): (r: seq<real>)
    ensures |r| == |samples| && forall k :: 0 <= k < |r| ==> r[k] == samples[k].1
  {
    seq(|samples|, k requires 0 <= k < |samples| => samples[k].1)
  }

  // ---------------------------------------------------------------------
  // Separate.

  /** Detection `j` is the last of its object: the signed step to the next
      angle is not below 5, so a step downwards never splits. */
  predicate BreakAt(angles: seq<real>, j: int)
    requires 0 <= j && j + 1 < |angles|
  {
    !(angles[j + 1] - angles[j] < GapAngle)
  }

  /** The indices below `m` where an object ends, in increasing order. */
  function Breaks(angles: seq<real>, m: nat): (r: seq<int>)
    requires m < |angles|
    ensures |r| <= m
    ensures forall i :: 0 <= i < |r| ==> 0 <= r[i] < m && BreakAt(angles, r[i])
    ensures forall i, i' :: 0 <= i < i' < |r| ==> r[i] < r[i']
  {
    if m == 0 then []
    else Breaks(angles, m - 1) + (if BreakAt(angles, m - 1) then [m - 1] else [])
  }

  /** Every break below `m` is listed. */
  lemma {:induction false} BreaksComplete(angles: seq<real>, m: nat)
    requires m < |angles|
    ensures forall j :: 0 <= j < m && BreakAt(angles, j) ==> j in Breaks(angles, m)
  {
    if m > 0 {
      BreaksComplete(angles, m - 1);
    }
  }

  /** The end index of the object before object `i`, or -1. */
  function PrevEnd(ends: seq<int>, i: nat): int
    requires i <= |ends|
  {
    if i == 0 then -1 else ends[i - 1]
  }

  /** The per-object lists of the separation loop (`N`, `objPts`,
      `objStart`, `objEnd`, `minObjAngle`, `maxObjAngle`). */
  datatype Objects = Objects(
    n: nat,
    objPts: seq<int>,
    objStart: seq<int>,
    objEnd: seq<int>,
    minObjAngle: seq<real>,
    maxObjAngle: seq<real>)

  /** `objPts`: object `i` holds the detections after the previous end up
      to and including its own. */
  function Counts(ends: seq<int>): (r: seq<int>)
    ensures |r| == |ends|
  {
    seq(|ends|, i requires 0 <= i < |ends| => ends[i] - PrevEnd(ends, i))
  }

  /** `objStart` as the loop fills it: the index after each end. */
  function NextStarts(ends: seq<int>): (r: seq<int>)
    ensures |r| == |ends|
  {
    seq(|ends|, i requires 0 <= i < |ends| => ends[i] + 1)
  }

  predicate IndicesIn(ends: seq<int>, shift: nat, size: nat)
  {
    forall i :: 0 <= i < |ends| ==> 0 <= ends[i] && ends[i] + shift < size
  }

  /** The angles at the end indices moved by `shift`. */
  function AnglesAt(angles: seq<real>, ends: seq<int>, shift: nat): (r: seq<real>)
    requires IndicesIn(ends, shift, |angles|)
    ensures |r| == |ends|
  {
    seq(|ends|, i requires 0 <= i < |ends| => angles[ends[i] + shift])
  }

  lemma CountsSnoc(ends: seq<int>, e: int)
    ensures Counts(ends + [e]) == Counts(ends) + [e - PrevEnd(ends, |ends|)]
  {
    var l, r := Counts(ends + [e]), Counts(ends) + [e - PrevEnd(ends, |ends|)];
    forall i | 0 <= i < |l|
      ensures l[i] == r[i]
    {
      if i < |ends| {
        assert PrevEnd(ends + [e], i) == PrevEnd(ends, i);
      }
    }
  }

  lemma NextStartsSnoc(ends: seq<int>, e: int)
    ensures NextStarts(ends + [e]) == NextStarts(ends) + [e + 1]
  {
    var l, r := NextStarts(ends + [e]), NextStarts(ends) + [e + 1];
    forall i | 0 <= i < |l|
      ensures l[i] == r[i]
    {
    }
  }

  lemma AnglesAtSnoc(angles: seq<real>, ends: seq<int>, e: int, shift: nat)
    requires IndicesIn(ends, shift, |angles|)
    requires 0 <= e && e + shift < |angles|
    ensures IndicesIn(ends + [e], shift, |angles|)
    ensures AnglesAt(angles, ends + [e], shift) == AnglesAt(angles, ends, shift) + [angles[e + shift]]
  {
    var l, r := AnglesAt(angles, ends + [e], shift), AnglesAt(angles, ends, shift) + [angles[e + shift]];
    forall i | 0 <= i < |l|
      ensures l[i] == r[i]
    {
    }
  }

  /** Reference definition of the separation of `angles` (detections plus
      sentinel): object `i` ends at the `i`-th break and holds the
      detections since the previous one; the next object's minimum angle
      is the angle after the break, and `objStart` records that index. */
  function Segments(angles: seq<real>, firstMin: real): (o: Objects)
    requires |angles| >= 1
  {
    var ends := Breaks(angles, |angles| - 1);
    Objects(|ends|, Counts(ends), NextStarts(ends), ends,
      [firstMin] + AnglesAt(angles, ends, 1), AnglesAt(angles, ends, 0))
  }

  /** The separation loop (`for j in range(numDetect)`), counting the
      detections of the current object in `k`. */
  method Separate(angles: seq<real>, firstMin: real) returns (o: Objects)
    requires |angles| >= 1
    ensures o == Segments(angles, firstMin)
  {
    var numDetect := |angles| - 1;
    var n, k := 0, 0;
    var objPts, objStart, objEnd: seq<int> := [], [], [];
    var minObjAngle, maxObjAngle: seq<real> := [firstMin], [];
    var j := 0;
    while j < numDetect
      invariant 0 <= j <= numDetect
      invariant objEnd == Breaks(angles, j) && n == |objEnd|
      invariant IndicesIn(objEnd, 1, |angles|)
      invariant k == j - 1 - PrevEnd(objEnd, n)
      invariant objPts == Counts(objEnd) && objStart == NextStarts(objEnd)
      invariant minObjAngle == [firstMin] + AnglesAt(angles, objEnd, 1)
      invariant maxObjAngle == AnglesAt(angles, objEnd, 0)
    {
      if angles[j + 1] - angles[j] < GapAngle {
        k := k + 1;
      } else {
        CountsSnoc(objEnd, j);
        NextStartsSnoc(objEnd, j);
        AnglesAtSnoc(angles, objEnd, j, 0);
        AnglesAtSnoc(angles, objEnd, j, 1);
        objPts := objPts + [k + 1];
        objEnd := objEnd + [j];
        maxObjAngle := maxObjAngle + [angles[j]];
        n := n + 1;
        objStart := objStart + [j + 1];
        minObjAngle := minObjAngle + [angles[j + 1]];
        k := 0;
      }
      j := j + 1;
    }
    o := Objects(n, objPts, objStart, objEnd, minObjAngle, maxObjAngle);
  }

  /** Sum of `objPts`. */
  function Sum(xs: seq<int>): int
  {
    if |xs| == 0 then 0 else Sum(xs[..|xs| - 1]) + xs[|xs| - 1]
  }

  /** The objects partition the detections up to the last break: the point
      counts add up to one past the last end index. */
  lemma {:induction false} PointsTelescope(angles: seq<real>, firstMin: real, n: nat)
    requires |angles| >= 1
    requires n <= Segments(angles, firstMin).n
    ensures var o := Segments(angles, firstMin);
      Sum(o.objPts[..n]) == PrevEnd(o.objEnd, n) + 1
  {
    var o := Segments(angles, firstMin);
    if n > 0 {
      PointsTelescope(angles, firstMin, n - 1);
      assert o.objPts[..n][..n - 1] == o.objPts[..n - 1];
    }
  }

  /** Each object holds at least one detection, and when the last detected
      angle is at most 265 degrees the sentinel closes the last object, so
      every detection belongs to exactly one object. */
  lemma SegmentsCover(angles: seq<real>, firstMin: real)
    requires |angles| >= 2
    requires angles[|angles| - 1] == SentinelAngle
    ensures var o := Segments(angles, firstMin);
      forall i :: 0 <= i < o.n ==> o.objPts[i] >= 1
    ensures angles[|angles| - 2] <= SentinelAngle - GapAngle ==>
      var o := Segments(angles, firstMin);
      o.n >= 1 && o.objEnd[o.n - 1] == |angles| - 2 && Sum(o.objPts) == |angles| - 1
  {
    var o := Segments(angles, firstMin);
    var m := |angles| - 1;
    if angles[m - 1] <= SentinelAngle - GapAngle {
      assert BreakAt(angles, m - 1);
      assert Breaks(angles, m) == Breaks(angles, m - 1) + [m - 1];
      PointsTelescope(angles, firstMin, o.n);
      assert o.objPts[..o.n] == o.objPts;
    }
  }

  /** `N` counts the steps of 5 degrees or more between consecutive
      detections, the step into the sentinel included. */
  lemma SegmentsCount(angles: seq<real>, firstMin: real)
    requires |angles| >= 1
    ensures var o := Segments(angles, firstMin);
      forall j :: 0 <= j < |angles| - 1 ==> (j in o.objEnd <==> BreakAt(angles, j))
  {
    BreaksComplete(angles, |angles| - 1);
  }

  /** Object `i` spans from the angle after the previous break (the given
      first minimum for object 0) to the angle at its own break. */
  lemma ObjectAngles(angles: seq<real>, firstMin: real)
    requires |angles| >= 1
    ensures var o := Segments(angles, firstMin);
      && |o.minObjAngle| == o.n + 1 && |o.maxObjAngle| == o.n
      && o.minObjAngle[0] == firstMin
      && forall i :: 0 <= i < o.n ==>
           o.maxObjAngle[i] == angles[o.objEnd[i]] && o.minObjAngle[i + 1] == angles[o.objEnd[i] + 1]
  {
  }

  // ---------------------------------------------------------------------
  // Obstacles.

  /** `sum` over `range(a, b)` of `xs`; an empty range sums to 0. */
  function RangeSum(xs: seq<int>, a: int, b: int): int
    requires 0 <= a && b <= |xs|
    decreases b - a
  {
    if b <= a then 0 else RangeSum(xs, a, b - 1) + xs[b - 1]
  }

  /** Bounds every element in the range puts on its sum. */
  lemma {:induction false} RangeSumBounds(xs: seq<int>, a: int, b: int, lo: int, hi: int)
    requires 0 <= a <= b <= |xs|
    requires forall k :: a <= k < b ==> lo <= xs[k] <= hi
    ensures (b - a) * lo <= RangeSum(xs, a, b) <= (b - a) * hi
    decreases b - a
  {
    if a < b {
      RangeSumBounds(xs, a, b - 1, lo, hi);
      MulStep(b - 1 - a, lo);
      MulStep(b - 1 - a, hi);
    }
  }

  lemma MulStep(n: int, x: int)
    ensures (n + 1) * x == n * x + x
  {
  }

  /** The lists agree in length and every summation range lies inside the
      distance list. */
  predicate Fits(o: Objects, starts: seq<int>, dists: seq<int>)
  {
    && o.n == |o.objEnd| == |o.objPts| == |starts| == |o.maxObjAngle|
    && |o.minObjAngle| == o.n + 1
    && forall i :: 0 <= i < o.n ==> 0 <= starts[i] && 0 <= o.objEnd[i] && o.objEnd[i] + 1 <= |dists| && o.objPts[i] > 0
  }

  /** Per-object mean distance, centre angle and width. */
  datatype Obstacles = Obstacles(obsDist: seq<real>, obsDir: seq<real>, obsSize: seq<real>)

  /** The obstacle loop: `obsDist[i]` is the sum of `objDist` over
      `range(starts[i], objEnd[i] + 1)` divided by `objPts[i]`; `obsDir[i]`
      is the middle of the angle span; `obsSize[i]` is the span in radians
      times `obsDist[i]`. */
  function Characterize(o: Objects, starts: seq<int>, dists: seq<int>): (r: Obstacles)
    requires Fits(o, starts, dists)
    ensures |r.obsDist| == |r.obsDir| == |r.obsSize| == o.n
  {
    var obsDist := seq(o.n, i requires 0 <= i < o.n =>
      RangeSum(dists, starts[i], o.objEnd[i] + 1) as real / o.objPts[i] as real);
    Obstacles(
      obsDist,
      seq(o.n, i requires 0 <= i < o.n => o.minObjAngle[i] + (o.maxObjAngle[i] - o.minObjAngle[i]) / 2.0),
      seq(o.n, i requires 0 <= i < o.n => (o.maxObjAngle[i] - o.minObjAngle[i]) * DegToRad * obsDist[i]))
  }

  /** The direction is the middle of the object's angle span, and the width
      vanishes exactly when the span or the mean distance does. */
  lemma CentreAndWidth(o: Objects, starts: seq<int>, dists: seq<int>, i: nat)
    requires Fits(o, starts, dists) && i < o.n
    ensures var r := Characterize(o, starts, dists);
      && r.obsDir[i] - o.minObjAngle[i] == o.maxObjAngle[i] - r.obsDir[i]
      && (o.minObjAngle[i] <= o.maxObjAngle[i] ==> o.minObjAngle[i] <= r.obsDir[i] <= o.maxObjAngle[i])
      && (r.obsSize[i] == 0.0 <==> o.minObjAngle[i] == o.maxObjAngle[i] || r.obsDist[i] == 0.0)
  {
  }

  /** The start index of each object as the bookkeeping evidently means it:
      one past the previous object's end, so the first object starts at 0. */
  function CorrectedStarts(ends: seq<int>): (r: seq<int>)
    ensures |r| == |ends|
    ensures |ends| > 0 ==> r[0] == 0
    ensures forall i :: 0 < i < |ends| ==> r[i] == ends[i - 1] + 1
  {
    seq(|ends|, i requires 0 <= i < |ends| => PrevEnd(ends, i) + 1)
  }

  lemma SegmentsFit(angles: seq<real>, firstMin: real, dists: seq<int>)
    requires |angles| >= 1 && |dists| == |angles|
    ensures var o := Segments(angles, firstMin);
      Fits(o, o.objStart, dists) && Fits(o, CorrectedStarts(o.objEnd), dists)
  {
    var o := Segments(angles, firstMin);
    forall i | 0 < i < o.n
      ensures o.objPts[i] > 0
    {
      assert o.objEnd[i - 1] < o.objEnd[i];
    }
  }

  /** The range each object is averaged over, against the number of
      detections it holds: from `objStart` as the loop fills it the range
      is empty although the object is not, while from the corrected start
      it holds exactly the object's `objPts[i]` detections, ending at its
      end index. */
  lemma AveragingRange(angles: seq<real>, firstMin: real, i: nat)
    requires |angles| >= 1
    requires i < Segments(angles, firstMin).n
    ensures var o := Segments(angles, firstMin);
      && o.objEnd[i] + 1 - o.objStart[i] == 0 < o.objPts[i]
      && o.objEnd[i] + 1 - CorrectedStarts(o.objEnd)[i] == o.objPts[i]
  {
    var o := Segments(angles, firstMin);
    if i > 0 {
      assert o.objEnd[i - 1] < o.objEnd[i];
    }
  }

  /** With the corrected starts, an obstacle's distance is the mean of the
      `objPts[i]` distances up to and including its end index. */
  lemma CorrectedMeanOfOwnPoints(angles: seq<real>, firstMin: real, dists: seq<int>, i: nat)
    requires |angles| >= 1 && |dists| == |angles|
    requires i < Segments(angles, firstMin).n
    ensures var o := Segments(angles, firstMin);
      Fits(o, CorrectedStarts(o.objEnd), dists)
      && Characterize(o, CorrectedStarts(o.objEnd), dists).obsDist[i]
         == RangeSum(dists, o.objEnd[i] + 1 - o.objPts[i], o.objEnd[i] + 1) as real / o.objPts[i] as real
  {
    var o := Segments(angles, firstMin);
    assert Fits(o, CorrectedStarts(o.objEnd), dists) by {
      SegmentsFit(angles, firstMin, dists);
    }
    assert o.objEnd[i] + 1 - CorrectedStarts(o.objEnd)[i] == o.objPts[i] by {
      AveragingRange(angles, firstMin, i);
    }
    OwnMean(o, dists, i);
  }

  /** Obstacle `i`'s distance when its corrected averaging range holds
      exactly its own points. */
  lemma OwnMean(o: Objects, dists: seq<int>, i: nat)
    requires Fits(o, CorrectedStarts(o.objEnd), dists) && i < o.n
    requires o.objEnd[i] + 1 - CorrectedStarts(o.objEnd)[i] == o.objPts[i]
    ensures Characterize(o, CorrectedStarts(o.objEnd), dists).obsDist[i]
         == RangeSum(dists, o.objEnd[i] + 1 - o.objPts[i], o.objEnd[i] + 1) as real / o.objPts[i] as real
  {
    var starts := CorrectedStarts(o.objEnd);
    var sum := RangeSum(dists, starts[i], o.objEnd[i] + 1);
    assert Characterize(o, starts, dists).obsDist[i] == sum as real / o.objPts[i] as real;
    assert starts[i] == o.objEnd[i] + 1 - o.objPts[i];
  }

  // ---------------------------------------------------------------------
  // The whole function.

  /** Everything `ObjectDetect` computes for a sweep with detections. */
  datatype Report = Report(objDist: seq<int>, objAngle: seq<real>, objects: Objects, obstacles: Obstacles)

  /** The first object's minimum angle: the first sweep sample's angle
      when its distance is between 10 and 100, whatever the window, else
      the first detection's. */
  function FirstMin(scan: seq<(int, real)>, found: seq<(int, real)>): real
    requires |scan| > 0 && |found| > 0
  {
    if (scan[0].0 <= 100) && (scan[0].0 >= 10) then scan[0].1 else found[0].1
  }

  /** The detections plus the sentinel `(maxRange + 10, 270)`, and the
      first object's minimum angle. */
  function Prepare(scan: seq<(int, real)>, minRange: int, maxRange: int): (r: Option<(seq<int>, seq<real>, real)>)
    ensures r.None? <==> forall k :: 0 <= k < |scan| ==> !InRange(scan[k].0, minRange, maxRange)
    ensures r.Some? ==>
      var (objDist, objAngle, firstMin) := r.value;
      var found := Detect(scan, minRange, maxRange);
      && objDist == Dists(found) + [maxRange + 10]
      && objAngle == Angles(found) + [SentinelAngle]
      && firstMin == FirstMin(scan, found)
  {
    var found := Detect(scan, minRange, maxRange);
    if |found| == 0 then None
    else
      var objDist := Dists(found) + [maxRange + 10];
      var objAngle := Angles(found) + [SentinelAngle];
      Some((objDist, objAngle, FirstMin(scan, found)))
  }

  /** `ObjectDetect(fHandle, NSize, minRange, maxRange, scanDist, scanAngle)`
      as written: `None` is the early return when nothing is in range. */
  function ObjectDetect(scan: seq<(int, real)>, minRange: int, maxRange: int): (r: Option<Report>)
    ensures r.None? <==> forall k :: 0 <= k < |scan| ==> !InRange(scan[k].0, minRange, maxRange)
    ensures r.Some? ==>
      var found := Detect(scan, minRange, maxRange);
      && |scan| > 0 && |found| > 0
      && r.value.objDist == Dists(found) + [maxRange + 10]
      && r.value.objAngle == Angles(found) + [SentinelAngle]
      && r.value.objects == Segments(r.value.objAngle, FirstMin(scan, found))
      && Fits(r.value.objects, r.value.objects.objStart, r.value.objDist)
      && r.value.obstacles == Characterize(r.value.objects, r.value.objects.objStart, r.value.objDist)
  {
    match Prepare(scan, minRange, maxRange)
    case None => None
    case Some((objDist, objAngle, firstMin)) =>
      var o := Segments(objAngle, firstMin);
      SegmentsFit(objAngle, firstMin, objDist);
      Some(Report(objDist, objAngle, o, Characterize(o, o.objStart, objDist)))
  }

  /** The same with every object averaged over its own detections. */
  function ObjectDetectCorrected(scan: seq<(int, real)>, minRange: int, maxRange: int): (r: Option<Report>)
    ensures r.None? <==> forall k :: 0 <= k < |scan| ==> !InRange(scan[k].0, minRange, maxRange)
    ensures r.Some? ==>
      var found := Detect(scan, minRange, maxRange);
      && |scan| > 0 && |found| > 0
      && r.value.objDist == Dists(found) + [maxRange + 10]
      && r.value.objAngle == Angles(found) + [SentinelAngle]
      && r.value.objects == Segments(r.value.objAngle, FirstMin(scan, found))
      && Fits(r.value.objects, CorrectedStarts(r.value.objects.objEnd), r.value.objDist)
      && r.value.obstacles == Characterize(r.value.objects, CorrectedStarts(r.value.objects.objEnd), r.value.objDist)
  {
    match Prepare(scan, minRange, maxRange)
    case None => None
    case Some((objDist, objAngle, firstMin)) =>
      var o := Segments(objAngle, firstMin);
      SegmentsFit(objAngle, firstMin, objDist);
      Some(Report(objDist, objAngle, o, Characterize(o, CorrectedStarts(o.objEnd), objDist)))
  }

  /** The first object's minimum angle is the first sweep sample's angle
      when that sample lies between 10 and 100 cm, whatever the window,
      and the first detection's angle otherwise. */
  lemma FirstObjectMin(scan: seq<(int, real)>, minRange: int, maxRange: int)
    requires ObjectDetect(scan, minRange, maxRange).Some?
    ensures var rep := ObjectDetect(scan, minRange, maxRange).value;
      && |scan| > 0 && |rep.objAngle| > 0 && |rep.objects.minObjAngle| > 0
      && rep.objects.minObjAngle[0] == if 10 <= scan[0].0 <= 100 then scan[0].1 else rep.objAngle[0]
  {
  }

  /** As written, `objStart[i]` is `objEnd[i] + 1`, so every averaging
      range is empty: each mean distance, and with it each width, is 0. */
  lemma AsWrittenMeansAreZero(scan: seq<(int, real)>, minRange: int, maxRange: int)
    requires ObjectDetect(scan, minRange, maxRange).Some?
    ensures var rep := ObjectDetect(scan, minRange, maxRange).value;
      && (forall i :: 0 <= i < rep.objects.n ==> rep.objects.objStart[i] == rep.objects.objEnd[i] + 1)
      && (forall i :: 0 <= i < rep.objects.n ==> rep.obstacles.obsDist[i] == 0.0 && rep.obstacles.obsSize[i] == 0.0)
  {
    var rep := ObjectDetect(scan, minRange, maxRange).value;
    EmptyRangesMeanZero(rep.objects, rep.objDist);
  }

  /** Averaging every object over the empty range after its end gives 0. */
  lemma EmptyRangesMeanZero(o: Objects, dists: seq<int>)
    requires Fits(o, o.objStart, dists) && o.objStart == NextStarts(o.objEnd)
    ensures forall i :: 0 <= i < o.n ==> o.objStart[i] == o.objEnd[i] + 1
    ensures var r := Characterize(o, o.objStart, dists);
      forall i :: 0 <= i < o.n ==> r.obsDist[i] == 0.0 && r.obsSize[i] == 0.0
  {
    var r := Characterize(o, o.objStart, dists);
    forall i | 0 <= i < o.n
      ensures r.obsDist[i] == 0.0 && r.obsSize[i] == 0.0
    {
      assert RangeSum(dists, o.objStart[i], o.objEnd[i] + 1) == 0;
    }
  }

  /** With the corrected starts, every object's mean distance lies inside
      the detection window, as the mean of in-range distances must. */
  lemma CorrectedMeansInWindow(scan: seq<(int, real)>, minRange: int, maxRange: int)
    requires ObjectDetectCorrected(scan, minRange, maxRange).Some?
    ensures var rep := ObjectDetectCorrected(scan, minRange, maxRange).value;
      forall i :: 0 <= i < rep.objects.n ==>
        minRange as real <= rep.obstacles.obsDist[i] <= maxRange as real
  {
    var rep := ObjectDetectCorrected(scan, minRange, maxRange).value;
    var found := Detect(scan, minRange, maxRange);
    var o := rep.objects;
    DetectedInWindow(found, minRange, maxRange, rep.objDist);
    forall i | 0 <= i < o.n
      ensures minRange as real <= rep.obstacles.obsDist[i] <= maxRange as real
    {
      assert o.objEnd[i] < |found|;
      if i > 0 {
        assert o.objEnd[i - 1] < o.objEnd[i];
      }
      CorrectedMean(o, rep.objDist, minRange, maxRange, i);
    }
  }

  /** Every distance before the sentinel is inside the window. */
  lemma DetectedInWindow(found: seq<(int, real)>, minRange: int, maxRange: int, dists: seq<int>)
    requires forall k :: 0 <= k < |found| ==> InRange(found[k].0, minRange, maxRange)
    requires dists == Dists(found) + [maxRange + 10]
    ensures forall k :: 0 <= k < |found| ==> minRange <= dists[k] <= maxRange
  {
  }

  /** One object's mean over its own detections, when they all lie in
      `[lo, hi]`, lies in `[lo, hi]` as well. */
  lemma CorrectedMean(o: Objects, dists: seq<int>, lo: int, hi: int, i: nat)
    requires Fits(o, CorrectedStarts(o.objEnd), dists)
    requires o.objPts == Counts(o.objEnd)
    requires i < o.n
    requires 0 < i ==> o.objEnd[i - 1] < o.objEnd[i]
    requires forall k :: 0 <= k <= o.objEnd[i] ==> lo <= dists[k] <= hi
    ensures lo as real <= Characterize(o, CorrectedStarts(o.objEnd), dists).obsDist[i] <= hi as real
  {
    var a, b := CorrectedStarts(o.objEnd)[i], o.objEnd[i] + 1;
    RangeSumBounds(dists, a, b, lo, hi);
    var s := RangeSum(dists, a, b);
    var c := o.objPts[i];
    assert c == b - a;
    MeanBounds(s, c, lo, hi);
  }

  lemma MeanBounds(s: int, c: int, lo: int, hi: int)
    requires c > 0 && c * lo <= s <= c * hi
    ensures lo as real <= s as real / c as real <= hi as real
  {
    assert (c * lo) as real == c as real * lo as real;
    assert (c * hi) as real == c as real * hi as real;
  }

  /** Two detections one degree apart at 50 cm form one object: as written
      its mean distance is 0, corrected it is 50. */
  lemma OffByOneExample()
    ensures ObjectDetect([(50, 0.0), (50, 1.0)], 10, 3100).value.obstacles.obsDist == [0.0]
    ensures ObjectDetectCorrected([(50, 0.0), (50, 1.0)], 10, 3100).value.obstacles.obsDist == [50.0]
  {
    var scan := [(50, 0.0), (50, 1.0)];
    assert scan[..1] == [(50, 0.0)];
    assert Detect(scan, 10, 3100) == scan;
    var angles := [0.0, 1.0, SentinelAngle];
    assert Angles(scan) + [SentinelAngle] == angles;
    assert Dists(scan) + [3100 + 10] == [50, 50, 3110];
    assert !BreakAt(angles, 0) && BreakAt(angles, 1);
    assert Breaks(angles, 2) == [1];
  }
}
