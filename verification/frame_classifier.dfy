/** Scene scoring from app/frame_classifier.py.

    The video reader (seek to a time, read one frame) and the image
    classifier are folded into one oracle `FrameReader`: at a timestamp it
    yields the class index the classifier would give the frame there, or
    None when the read fails. Class index 0 is "advertisement". */
module FrameClassifier {
  import opened Wrappers
  import opened Selection

  /** Class index returned by the classifier (the arg-max of its output). */
  type Label = int

  const AdLabel: Label := 0

  /** The default `frame_interval` of every scorer, in seconds. */
  const DefaultInterval: real := 0.5

  type FrameReader = real -> Option<Label>

  /** A scene `(start, end)` in seconds, as produced by scene detection. */
  datatype TimeRange = TimeRange(start: real, end: real)

  datatype ScoreError = ZeroDivision

  predicate IsAd(cls: Label)
  {
    cls == AdLabel
  }

  // ---------------------------------------------------------------------
  // Sampling

  /** The time of the k-th sample: the loop adds `interval` to the current
      time after each sample. */
  function SampleTime(start: real, interval: real, k: nat): real
  {
    if k == 0 then start else SampleTime(start, interval, k - 1) + interval
  }

  /** In exact arithmetic the k-th sample is taken at `start + k * interval`. */
  lemma {:induction false} SampleTimeClosedForm(start: real, interval: real, k: nat)
    ensures SampleTime(start, interval, k) == start + k as real * interval
  {
    if k > 0 {
      SampleTimeClosedForm(start, interval, k - 1);
    }
  }

  /** How many sample times `start + k * interval` lie at or before `end`. */
  function MaxSamples(start: real, end: real, interval: real): int
    requires interval > 0.0
  {
    if start > end then 0 else ((end - start) / interval).Floor + 1
  }

  /** Multiplying by a positive factor preserves strict order. */
  lemma MulStrictlyMonotonic(a: real, b: real, c: real)
    requires c > 0.0 && a < b
    ensures a * c < b * c
  {
    assert b * c - a * c == (b - a) * c;
  }

  lemma SampleTimeWithinBound(start: real, end: real, interval: real, k: nat)
    requires interval > 0.0
    requires SampleTime(start, interval, k) <= end
    ensures k < MaxSamples(start, end, interval)
  {
    SampleTimeClosedForm(start, interval, k);
    var x := (end - start) / interval;
    assert end - start == x * interval;
    var f := x.Floor;
    assert x < (f + 1) as real;
    MulStrictlyMonotonic(x, (f + 1) as real, interval);
    assert k as real * interval < (f + 1) as real * interval;
    if f + 1 <= k {
      MulStrictlyMonotonic((f + 1) as real, k as real, interval);
    }
  }

  /** The labels read from sample `k` on: the sampling loop reads at
      `start + j * interval` while that time is at or before `end`, and stops
      at the first failed read. */
  function Samples(read: FrameReader, start: real, end: real, interval: real, k: nat): seq<Label>
    requires interval > 0.0
    decreases MaxSamples(start, end, interval) - k
  {
    var t := SampleTime(start, interval, k);
    if t > end || read(t).None? then []
    else
      SampleTimeWithinBound(start, end, interval, k);
      [read(t).value] + Samples(read, start, end, interval, k + 1)
  }

  /** The labels of all samples of the scene. */
  function SceneSamples(read: FrameReader, start: real, end: real, interval: real): seq<Label>
    requires interval > 0.0
  {
    Samples(read, start, end, interval, 0)
  }

  /** Sample i lies within the scene and its read yielded `cls`. */
  ghost predicate SampleRead(read: FrameReader, start: real, end: real, interval: real, i: nat, cls: Label)
  {
    SampleTime(start, interval, i) <= end && read(SampleTime(start, interval, i)) == Some(cls)
  }

  /** Every label of `l` was read, at the sample times counted from k, within
      the scene. */
  ghost predicate ReadInOrder(read: FrameReader, start: real, end: real, interval: real, k: nat, l: seq<Label>)
  {
    forall j :: 0 <= j < |l| ==> SampleRead(read, start, end, interval, k + j, l[j])
  }

  /** Sampling stops at sample n: its time is past the end or its read fails. */
  ghost predicate StopsAt(read: FrameReader, start: real, end: real, interval: real, n: nat)
  {
    SampleTime(start, interval, n) > end || read(SampleTime(start, interval, n)) == None
  }

  /** One more sample: the read at sample k succeeded within the scene. */
  lemma SamplesStep(read: FrameReader, start: real, end: real, interval: real, k: nat)
    requires interval > 0.0
    requires SampleTime(start, interval, k) <= end && read(SampleTime(start, interval, k)).Some?
    ensures Samples(read, start, end, interval, k)
         == [read(SampleTime(start, interval, k)).value] + Samples(read, start, end, interval, k + 1)
  {
    SampleTimeWithinBound(start, end, interval, k);
  }

  /** Sample j (counted from k) was read at a time within the scene and
      yielded that label, and sampling stopped because the next time is past
      the end or its read failed. */
  lemma {:induction false} SamplesAreReadsUntilFirstFailure(read: FrameReader, start: real, end: real, interval: real, k: nat)
    requires interval > 0.0
    ensures ReadInOrder(read, start, end, interval, k, Samples(read, start, end, interval, k))
    ensures StopsAt(read, start, end, interval, k + |Samples(read, start, end, interval, k)|)
    decreases MaxSamples(start, end, interval) - k
  {
    var t := SampleTime(start, interval, k);
    var l := Samples(read, start, end, interval, k);
    if t <= end && read(t).Some? {
      SampleTimeWithinBound(start, end, interval, k);
      SamplesAreReadsUntilFirstFailure(read, start, end, interval, k + 1);
      var rest := Samples(read, start, end, interval, k + 1);
      SamplesStep(read, start, end, interval, k);
      assert l == [read(t).value] + rest;
      forall j | 0 <= j < |l|
        ensures SampleRead(read, start, end, interval, k + j, l[j])
      {
        if j > 0 {
          assert l[j] == rest[j - 1];
          assert SampleRead(read, start, end, interval, (k + 1) + (j - 1), rest[j - 1]);
        }
      }
      assert k + |l| == (k + 1) + |rest|;
    } else {
      assert l == [];
    }
  }

  /** Conversely, any label sequence that reads like the loop does, from sample
      k on, is the one `Samples` gives. */
  lemma {:induction false} SamplesUnique(read: FrameReader, start: real, end: real, interval: real, k: nat, l: seq<Label>)
    requires interval > 0.0
    requires ReadInOrder(read, start, end, interval, k, l)
    requires StopsAt(read, start, end, interval, k + |l|)
    ensures l == Samples(read, start, end, interval, k)
    decreases |l|
  {
    if l != [] {
      assert SampleRead(read, start, end, interval, k + 0, l[0]);
      var rest := l[1..];
      forall j | 0 <= j < |rest|
        ensures SampleRead(read, start, end, interval, (k + 1) + j, rest[j])
      {
        assert SampleRead(read, start, end, interval, k + (j + 1), l[j + 1]);
      }
      assert k + |l| == (k + 1) + |rest|;
      SamplesUnique(read, start, end, interval, k + 1, rest);
      SamplesStep(read, start, end, interval, k);
    }
  }

  /** Sampling that stops at sample n has read exactly n samples. */
  lemma StopsAtSampleCount(read: FrameReader, start: real, end: real, interval: real, n: nat)
    requires interval > 0.0
    requires n <= |SceneSamples(read, start, end, interval)|
    requires StopsAt(read, start, end, interval, n)
    ensures n == |SceneSamples(read, start, end, interval)|
  {
    var l := SceneSamples(read, start, end, interval);
    SamplesAreReadsUntilFirstFailure(read, start, end, interval, 0);
    forall j | 0 <= j < n
      ensures SampleRead(read, start, end, interval, 0 + j, l[..n][j])
    {
      assert SampleRead(read, start, end, interval, 0 + j, l[j]);
    }
    assert 0 + n == n;
    SamplesUnique(read, start, end, interval, 0, l[..n]);
  }

  /** A scene that starts after it ends is never sampled, and otherwise at
      most `floor((end - start) / interval) + 1` samples are read. */
  lemma SampleCountBound(read: FrameReader, start: real, end: real, interval: real)
    requires interval > 0.0
    ensures start > end ==> |SceneSamples(read, start, end, interval)| == 0
    ensures start <= end ==> |SceneSamples(read, start, end, interval)| <= ((end - start) / interval).Floor + 1
  {
    var l := Samples(read, start, end, interval, 0);
    SamplesAreReadsUntilFirstFailure(read, start, end, interval, 0);
    if |l| > 0 {
      var j := |l| - 1;
      assert SampleRead(read, start, end, interval, 0 + j, l[j]);
      SampleTimeWithinBound(start, end, interval, |l| - 1);
    }
  }

  // ---------------------------------------------------------------------
  // Reductions

  /** Number of labels that mark an advertisement. */
  function AdCount(labels: seq<Label>): (n: nat)
    ensures n <= |labels|
  {
    if labels == [] then 0
    else AdCount(labels[..|labels| - 1]) + (if IsAd(labels[|labels| - 1]) then 1 else 0)
  }

  lemma {:induction false} AdCountAllOrNone(labels: seq<Label>)
    ensures (forall j :: 0 <= j < |labels| ==> IsAd(labels[j])) ==> AdCount(labels) == |labels|
    ensures (forall j :: 0 <= j < |labels| ==> !IsAd(labels[j])) ==> AdCount(labels) == 0
  {
    if labels != [] {
      var n := |labels| - 1;
      AdCountAllOrNone(labels[..n]);
    }
  }

  /** `part / whole * 100`, or 0.0 when the whole is not positive (the guard
      the Python code writes as `if total > 0 else 0.0`). */
  function Percentage(part: real, whole: real): real
  {
    if whole > 0.0 then part / whole * 100.0 else 0.0
  }

  lemma NonNegativeFactor(a: real, c: real)
    requires c > 0.0 && a * c >= 0.0
    ensures a >= 0.0
  {
  }

  lemma PercentageBounds(part: real, whole: real)
    requires 0.0 <= part <= whole
    ensures 0.0 <= Percentage(part, whole) <= 100.0
    ensures whole > 0.0 && part == whole ==> Percentage(part, whole) == 100.0
    ensures part == 0.0 ==> Percentage(part, whole) == 0.0
  {
    if whole > 0.0 {
      var q := part / whole;
      assert (1.0 - q) * whole == whole - part;
      NonNegativeFactor(1.0 - q, whole);
    }
  }

  /** A larger part of the same whole never gives a smaller percentage. */
  lemma PercentageMonotonic(part1: real, part2: real, whole: real)
    requires part1 <= part2
    ensures Percentage(part1, whole) <= Percentage(part2, whole)
  {
    if whole > 0.0 {
      assert part1 / whole <= part2 / whole by {
        assert part2 / whole - part1 / whole == (part2 - part1) / whole;
      }
    }
  }

  /** The unweighted score: the percentage of samples labelled as ads. */
  function UnweightedScore(read: FrameReader, start: real, end: real, interval: real): real
    requires interval > 0.0
  {
    var l := SceneSamples(read, start, end, interval);
    Percentage(AdCount(l) as real, |l| as real)
  }

  /** Weight of sample k: its relative position `(t - start) / (end - start)`. */
  function Weight(start: real, end: real, interval: real, k: nat): real
    requires end != start
  {
    (SampleTime(start, interval, k) - start) / (end - start)
  }

  /** Sum of the weights of the first n samples. */
  function TotalWeight(start: real, end: real, interval: real, n: nat): real
    requires end != start
  {
    if n == 0 then 0.0 else TotalWeight(start, end, interval, n - 1) + Weight(start, end, interval, n - 1)
  }

  /** Sum of the weights of the samples labelled as ads. */
  function AdWeight(labels: seq<Label>, start: real, end: real, interval: real): real
    requires end != start
  {
    if labels == [] then 0.0
    else
      var n := |labels| - 1;
      AdWeight(labels[..n], start, end, interval) + (if IsAd(labels[n]) then Weight(start, end, interval, n) else 0.0)
  }

  /** The position-weighted score; a zero-length scene whose first read
      succeeds divides by zero. */
  function WeightedScore(read: FrameReader, start: real, end: real, interval: real): Result<real, ScoreError>
    requires interval > 0.0
  {
    var l := SceneSamples(read, start, end, interval);
    if |l| == 0 then Success(0.0)
    else if end == start then Failure(ZeroDivision)
    else Success(Percentage(AdWeight(l, start, end, interval), TotalWeight(start, end, interval, |l|)))
  }

  lemma AdWeightPrefix(labels: seq<Label>, k: nat, start: real, end: real, interval: real)
    requires end != start && k < |labels|
    ensures AdWeight(labels[..k + 1], start, end, interval)
         == AdWeight(labels[..k], start, end, interval) + (if IsAd(labels[k]) then Weight(start, end, interval, k) else 0.0)
  {
    assert labels[..k + 1][..k] == labels[..k];
  }

  lemma AdCountPrefix(labels: seq<Label>, k: nat)
    requires k < |labels|
    ensures AdCount(labels[..k + 1]) == AdCount(labels[..k]) + (if IsAd(labels[k]) then 1 else 0)
  {
    assert labels[..k + 1][..k] == labels[..k];
  }

  // ---------------------------------------------------------------------
  // Properties of the two scores

  /** A ratio of a part to a positive whole that contains it lies in [0, 1]. */
  lemma RatioInUnitInterval(part: real, whole: real)
    requires 0.0 <= part <= whole && whole > 0.0
    ensures 0.0 <= part / whole <= 1.0
  {
    var q := part / whole;
    assert q * whole == part;
    assert (1.0 - q) * whole == whole - part;
    NonNegativeFactor(1.0 - q, whole);
    NonNegativeFactor(q, whole);
  }

  /** The unweighted score is a percentage: 0.0 without samples, 100.0 when
      every sample is an ad, 0.0 when none is. */
  lemma UnweightedScoreProperties(read: FrameReader, start: real, end: real, interval: real)
    requires interval > 0.0
    ensures 0.0 <= UnweightedScore(read, start, end, interval) <= 100.0
    ensures |SceneSamples(read, start, end, interval)| == 0 ==> UnweightedScore(read, start, end, interval) == 0.0
    ensures var l := SceneSamples(read, start, end, interval);
      |l| > 0 && (forall j :: 0 <= j < |l| ==> IsAd(l[j])) ==> UnweightedScore(read, start, end, interval) == 100.0
    ensures var l := SceneSamples(read, start, end, interval);
      (forall j :: 0 <= j < |l| ==> !IsAd(l[j])) ==> UnweightedScore(read, start, end, interval) == 0.0
  {
    var l := SceneSamples(read, start, end, interval);
    AdCountAllOrNone(l);
    PercentageBounds(AdCount(l) as real, |l| as real);
  }

  /** Of two readers that read as many frames of a scene, the one that sees
      no more ad frames scores no higher. */
  lemma UnweightedScoreMonotonic(read1: FrameReader, read2: FrameReader, start: real, end: real, interval: real)
    requires interval > 0.0
    requires |SceneSamples(read1, start, end, interval)| == |SceneSamples(read2, start, end, interval)|
    requires AdCount(SceneSamples(read1, start, end, interval)) <= AdCount(SceneSamples(read2, start, end, interval))
    ensures UnweightedScore(read1, start, end, interval) <= UnweightedScore(read2, start, end, interval)
  {
    var l1, l2 := SceneSamples(read1, start, end, interval), SceneSamples(read2, start, end, interval);
    PercentageMonotonic(AdCount(l1) as real, AdCount(l2) as real, |l1| as real);
  }

  /** Sample k sits `k * interval` after the start of the scene. */
  lemma SampleOffset(start: real, end: real, interval: real, k: nat)
    requires interval > 0.0 && start < end
    ensures SampleTime(start, interval, k) - start >= 0.0
    ensures k > 0 ==> SampleTime(start, interval, k) - start > 0.0
    ensures Weight(start, end, interval, k) >= 0.0
    ensures k > 0 ==> Weight(start, end, interval, k) > 0.0
  {
    SampleTimeClosedForm(start, interval, k);
    var d := end - start;
    var x := SampleTime(start, interval, k) - start;
    assert Weight(start, end, interval, k) * d == x;
    if k > 0 {
      MulStrictlyMonotonic(0.0, k as real, interval);
      MulStrictlyMonotonic(0.0, d, Weight(start, end, interval, k) - 0.0);
    }
    NonNegativeFactor(Weight(start, end, interval, k), d);
  }

  /** Every weight of a sampled frame is its relative position in [0, 1]. */
  lemma WeightInUnitInterval(read: FrameReader, start: real, end: real, interval: real, j: nat)
    requires interval > 0.0 && end != start
    requires j < |SceneSamples(read, start, end, interval)|
    ensures 0.0 <= Weight(start, end, interval, j) <= 1.0
  {
    var l := SceneSamples(read, start, end, interval);
    SamplesAreReadsUntilFirstFailure(read, start, end, interval, 0);
    assert SampleRead(read, start, end, interval, 0 + 0, l[0]);
    assert SampleRead(read, start, end, interval, 0 + j, l[j]);
    SampleOffset(start, end, interval, j);
    RatioInUnitInterval(SampleTime(start, interval, j) - start, end - start);
  }

  /** With the scene running forward, the ad weight is a non-negative part of
      the total weight. */
  lemma {:induction false} AdWeightBounds(labels: seq<Label>, start: real, end: real, interval: real)
    requires interval > 0.0 && start < end
    ensures 0.0 <= AdWeight(labels, start, end, interval) <= TotalWeight(start, end, interval, |labels|)
    ensures (forall j :: 0 <= j < |labels| ==> IsAd(labels[j]))
      ==> AdWeight(labels, start, end, interval) == TotalWeight(start, end, interval, |labels|)
    ensures (forall j :: 0 <= j < |labels| ==> !IsAd(labels[j])) ==> AdWeight(labels, start, end, interval) == 0.0
  {
    if labels != [] {
      var n := |labels| - 1;
      AdWeightBounds(labels[..n], start, end, interval);
      SampleOffset(start, end, interval, n);
    }
  }

  /** Two or more samples of a forward scene carry positive total weight. */
  lemma {:induction false} TotalWeightPositive(start: real, end: real, interval: real, n: nat)
    requires interval > 0.0 && start < end && n >= 2
    ensures TotalWeight(start, end, interval, n) > 0.0
  {
    SampleOffset(start, end, interval, n - 1);
    if n > 2 {
      TotalWeightPositive(start, end, interval, n - 1);
    } else {
      SampleOffset(start, end, interval, 0);
      assert TotalWeight(start, end, interval, 1) == Weight(start, end, interval, 0);
    }
  }

  /** The weighted score fails exactly when the scene has zero length and its
      first read succeeds; otherwise it is a percentage. */
  lemma WeightedScoreProperties(read: FrameReader, start: real, end: real, interval: real)
    requires interval > 0.0
    ensures WeightedScore(read, start, end, interval).Failure?
      <==> start == end && read(start).Some?
    ensures WeightedScore(read, start, end, interval).Success? ==>
      0.0 <= WeightedScore(read, start, end, interval).value <= 100.0
    ensures |SceneSamples(read, start, end, interval)| == 0 ==> WeightedScore(read, start, end, interval) == Success(0.0)
  {
    var l := SceneSamples(read, start, end, interval);
    SamplesAreReadsUntilFirstFailure(read, start, end, interval, 0);
    assert SampleTime(start, interval, 0) == start;
    if |l| > 0 {
      assert SampleRead(read, start, end, interval, 0 + 0, l[0]);
    } else {
      assert StopsAt(read, start, end, interval, 0 + 0);
    }
    if |l| > 0 && start != end {
      AdWeightBounds(l, start, end, interval);
      PercentageBounds(AdWeight(l, start, end, interval), TotalWeight(start, end, interval, |l|));
    }
  }

  /** An all-ad scene with at least two samples scores exactly 100.0 and a
      scene without ad samples scores 0.0, whatever the weights. */
  lemma WeightedScoreAllOrNone(read: FrameReader, start: real, end: real, interval: real)
    requires interval > 0.0 && start != end
    ensures var l := SceneSamples(read, start, end, interval);
      |l| >= 2 && (forall j :: 0 <= j < |l| ==> IsAd(l[j])) ==> WeightedScore(read, start, end, interval) == Success(100.0)
    ensures var l := SceneSamples(read, start, end, interval);
      (forall j :: 0 <= j < |l| ==> !IsAd(l[j])) ==> WeightedScore(read, start, end, interval) == Success(0.0)
  {
    var l := SceneSamples(read, start, end, interval);
    if |l| > 0 {
      SamplesAreReadsUntilFirstFailure(read, start, end, interval, 0);
      assert SampleRead(read, start, end, interval, 0 + 0, l[0]);
      assert SampleTime(start, interval, 0) == start;
      AdWeightBounds(l, start, end, interval);
      PercentageBounds(AdWeight(l, start, end, interval), TotalWeight(start, end, interval, |l|));
      if |l| >= 2 {
        TotalWeightPositive(start, end, interval, |l|);
      }
    }
  }

  /** The first sample has weight 0, so a scene where only the first frame
      can be read scores 0.0 whatever its label. */
  lemma WeightedScoreOnlyFirstFrame(read: FrameReader, start: real, end: real, interval: real)
    requires interval > 0.0 && start < end
    requires |SceneSamples(read, start, end, interval)| == 1
    ensures WeightedScore(read, start, end, interval) == Success(0.0)
  {
    var l := SceneSamples(read, start, end, interval);
    assert TotalWeight(start, end, interval, 1) == Weight(start, end, interval, 0) == 0.0;
  }

  // ---------------------------------------------------------------------
  // The scorers

  /** process_video_segments: the share of sampled frames classified as ads. */
  method ProcessVideoSegments(read: FrameReader, startTime: real, endTime: real, frameInterval: real)
    returns (adPercentage: real)
    requires frameInterval > 0.0
    ensures adPercentage == UnweightedScore(read, startTime, endTime, frameInterval)
    ensures 0.0 <= adPercentage <= 100.0
  {
    ghost var samples := SceneSamples(read, startTime, endTime, frameInterval);
    SamplesAreReadsUntilFirstFailure(read, startTime, endTime, frameInterval, 0);
    var totalFrames := 0;
    var adFrames := 0;
    var currentTime := startTime;
    while currentTime <= endTime
      invariant totalFrames <= |samples|
      invariant currentTime == SampleTime(startTime, frameInterval, totalFrames)
      invariant adFrames == AdCount(samples[..totalFrames])
      decreases |samples| - totalFrames
    {
      var frame := read(currentTime);
      if frame.None? {
        break;
      }
      assert SampleRead(read, startTime, endTime, frameInterval, 0 + totalFrames, samples[totalFrames]);
      AdCountPrefix(samples, totalFrames);
      totalFrames := totalFrames + 1;
      var cls := frame.value;
      if cls == AdLabel {
        adFrames := adFrames + 1;
      }
      currentTime := currentTime + frameInterval;
    }
    StopsAtSampleCount(read, startTime, endTime, frameInterval, totalFrames);
    assert samples[..totalFrames] == samples;
    adPercentage := if totalFrames > 0 then adFrames as real / totalFrames as real * 100.0 else 0.0;
    PercentageBounds(adFrames as real, totalFrames as real);
  }

  /** process_video_segments_after_: a line-for-line copy of
      process_video_segments, so it returns the same score. */
  method ProcessVideoSegmentsAfter(read: FrameReader, startTime: real, endTime: real, frameInterval: real)
    returns (adPercentage: real)
    requires frameInterval > 0.0
    ensures adPercentage == UnweightedScore(read, startTime, endTime, frameInterval)
    ensures 0.0 <= adPercentage <= 100.0
  {
    adPercentage := ProcessVideoSegments(read, startTime, endTime, frameInterval);
  }

  /** process_video_segments_weigth: the share of sample weight carried by
      frames classified as ads, later samples weighing more. */
  method ProcessVideoSegmentsWeighted(read: FrameReader, startTime: real, endTime: real, frameInterval: real)
    returns (result: Result<real, ScoreError>)
    requires frameInterval > 0.0
    ensures result == WeightedScore(read, startTime, endTime, frameInterval)
  {
    ghost var samples := SceneSamples(read, startTime, endTime, frameInterval);
    SamplesAreReadsUntilFirstFailure(read, startTime, endTime, frameInterval, 0);
    var totalWeightedValue := 0.0;
    var totalWeight := 0.0;
    var currentTime := startTime;
    var segmentDuration := endTime - startTime;
    ghost var k: nat := 0;
    while currentTime <= endTime
      invariant k <= |samples|
      invariant currentTime == SampleTime(startTime, frameInterval, k)
      invariant if segmentDuration == 0.0
        then k == 0 && totalWeight == 0.0 && totalWeightedValue == 0.0
        else (totalWeight == TotalWeight(startTime, endTime, frameInterval, k)
          && totalWeightedValue == AdWeight(samples[..k], startTime, endTime, frameInterval))
      decreases |samples| - k
    {
      var frame := read(currentTime);
      if frame.None? {
        break;
      }
      assert SampleRead(read, startTime, endTime, frameInterval, 0 + k, samples[k]);
      if segmentDuration == 0.0 {
        // Python raises ZeroDivisionError on `0.0 / 0.0`.
        return Failure(ZeroDivision);
      }
      var framePosition := (currentTime - startTime) / segmentDuration;
      var weight := framePosition;
      var cls := frame.value;
      totalWeight := totalWeight + weight;
      if cls == AdLabel {
        totalWeightedValue := totalWeightedValue + weight;
      }
      currentTime := currentTime + frameInterval;
      AdWeightPrefix(samples, k, startTime, endTime, frameInterval);
      k := k + 1;
    }
    StopsAtSampleCount(read, startTime, endTime, frameInterval, k);
    assert samples[..k] == samples;
    result := Success(if totalWeight > 0.0 then totalWeightedValue / totalWeight * 100.0 else 0.0);
  }

  // ---------------------------------------------------------------------
  // Scoring a list of scenes

  /** The unweighted score of each scene, at the default interval. */
  function SceneScores(read: FrameReader, scenes: seq<TimeRange>): (scores: seq<real>)
    ensures |scores| == |scenes|
  {
    seq(|scenes|, i requires 0 <= i < |scenes| => UnweightedScore(read, scenes[i].start, scenes[i].end, DefaultInterval))
  }

  /** The verdict of the threshold filter for each scene. */
  function AboveThreshold(scores: seq<real>, threshold: real): (keep: seq<bool>)
    ensures |keep| == |scores|
  {
    seq(|scores|, i requires 0 <= i < |scores| => scores[i] > threshold)
  }

  /** detect_ad_scenes_from_segments: the scenes (as given by scene
      detection) whose unweighted score is strictly above the threshold, in
      scene order. */
  method DetectAdScenesFromSegments(read: FrameReader, scenes: seq<TimeRange>, threshold: real)
    returns (res: seq<TimeRange>)
    ensures res == Select(scenes, AboveThreshold(SceneScores(read, scenes), threshold))
  {
    ghost var keep := AboveThreshold(SceneScores(read, scenes), threshold);
    res := [];
    for i := 0 to |scenes|
      invariant res == Select(scenes[..i], keep[..i])
    {
      var result := ProcessVideoSegmentsAfter(read, scenes[i].start, scenes[i].end, DefaultInterval);
      if result > threshold {
        res := res + [scenes[i]];
      }
      assert scenes[..i + 1][..i] == scenes[..i];
      assert keep[..i + 1][..i] == keep[..i];
    }
    assert scenes[..|scenes|] == scenes;
    assert keep[..|scenes|] == keep;
  }

  /** A scene is reported by the threshold filter iff it is one of the
      scenes and its score is strictly above the threshold. */
  lemma DetectedScenesAreAboveThreshold(read: FrameReader, scenes: seq<TimeRange>, threshold: real, r: TimeRange)
    ensures r in Select(scenes, AboveThreshold(SceneScores(read, scenes), threshold))
      <==> r in scenes && UnweightedScore(read, r.start, r.end, DefaultInterval) > threshold
  {
    var keep := AboveThreshold(SceneScores(read, scenes), threshold);
    SelectMembership(scenes, keep, r);
    if r in scenes && UnweightedScore(read, r.start, r.end, DefaultInterval) > threshold {
      var i :| 0 <= i < |scenes| && scenes[i] == r;
      assert keep[i];
    }
  }

  /** detect_ad_scenes_from_segments_and_get_all_results: a map from every
      scene to its unweighted score. A scene listed twice is scored twice and
      the later entry overwrites the earlier one with the same value. */
  method DetectAdScenesFromSegmentsAndGetAllResults(read: FrameReader, scenes: seq<TimeRange>)
    returns (resultDict: map<TimeRange, real>)
    ensures resultDict.Keys == set r | r in scenes
    ensures forall r :: r in resultDict ==> resultDict[r] == UnweightedScore(read, r.start, r.end, DefaultInterval)
  {
    resultDict := map[];
    for i := 0 to |scenes|
      invariant resultDict.Keys == set r | r in scenes[..i]
      invariant forall r :: r in resultDict ==> resultDict[r] == UnweightedScore(read, r.start, r.end, DefaultInterval)
    {
      var result := ProcessVideoSegmentsAfter(read, scenes[i].start, scenes[i].end, DefaultInterval);
      resultDict := resultDict[scenes[i] := result];
      assert scenes[..i + 1] == scenes[..i] + [scenes[i]];
    }
    assert scenes[..|scenes|] == scenes;
  }
}
