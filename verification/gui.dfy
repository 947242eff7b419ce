/** The analysis pipeline of app/gui.py (VideoAnalyzerApp._analyze_video and
    _is_advertisement): score every scene, align the scores with the scene
    list, and keep the scenes that pass a threshold lowered next to a strong
    neighbour. */
module Gui {
  import opened Wrappers
  import opened Selection
  import opened FrameClassifier

  const BaseThresh: real := 12.5
  const Boost: real := 10.0

  /** _is_advertisement: an isolated scene must reach the base threshold, a
      scene next to a strong one only the lowered threshold. */
  function IsAdvertisement(modelScore: real, baseThresh: real, boost: real, isIsolated: bool): (isAd: bool)
    ensures boost >= 0.0 && modelScore >= baseThresh ==> isAd
    ensures boost >= 0.0 && modelScore < baseThresh - boost ==> !isAd
    ensures boost >= 0.0 && isIsolated && isAd ==> IsAdvertisement(modelScore, baseThresh, boost, false)
  {
    var adjustedThresh := if isIsolated then baseThresh else baseThresh - boost;
    modelScore >= adjustedThresh
  }

  /** Scene i is isolated when neither neighbour that exists reaches the base
      threshold. */
  predicate IsIsolated(scores: seq<real>, i: nat, baseThresh: real)
    requires i < |scores|
  {
    var prevAd := i > 0 && scores[i - 1] >= baseThresh;
    var nextAd := i < |scores| - 1 && scores[i + 1] >= baseThresh;
    !prevAd && !nextAd
  }

  /** The hysteresis verdict for every scene, each read off the raw scores. */
  function HysteresisVerdicts(scores: seq<real>, baseThresh: real, boost: real): (keep: seq<bool>)
    ensures |keep| == |scores|
  {
    seq(|scores|, i requires 0 <= i < |scores| =>
      IsAdvertisement(scores[i], baseThresh, boost, IsIsolated(scores, i, baseThresh)))
  }

  /** Isolation in terms of the neighbours: no existing neighbour reaches the
      base threshold (the first scene has no previous, the last no next). */
  lemma IsolatedIffNoStrongNeighbour(scores: seq<real>, i: nat, baseThresh: real)
    requires i < |scores|
    ensures IsIsolated(scores, i, baseThresh)
      <==> forall j :: 0 <= j < |scores| && (j + 1 == i || j == i + 1) ==> scores[j] < baseThresh
  {
    if !IsIsolated(scores, i, baseThresh) {
      if i > 0 && scores[i - 1] >= baseThresh {
        assert (i - 1) + 1 == i;
      }
    }
  }

  /** With a non-negative boost, every scene reaching the base threshold is
      kept and no scene below the lowered threshold is. */
  lemma VerdictBounds(scores: seq<real>, baseThresh: real, boost: real, i: nat)
    requires boost >= 0.0 && i < |scores|
    ensures scores[i] >= baseThresh ==> HysteresisVerdicts(scores, baseThresh, boost)[i]
    ensures scores[i] < baseThresh - boost ==> !HysteresisVerdicts(scores, baseThresh, boost)[i]
  {
  }

  /** Each verdict depends only on the scores of the scene and its two
      neighbours, never on earlier verdicts. */
  lemma VerdictIsLocal(s1: seq<real>, s2: seq<real>, baseThresh: real, boost: real, i: nat)
    requires |s1| == |s2| && i < |s1|
    requires forall j :: 0 <= j < |s1| && i <= j + 1 && j <= i + 1 ==> s1[j] == s2[j]
    ensures HysteresisVerdicts(s1, baseThresh, boost)[i] == HysteresisVerdicts(s2, baseThresh, boost)[i]
  {
    assert s1[i] == s2[i];
    if i > 0 {
      assert s1[i - 1] == s2[i - 1];
    }
    if i < |s1| - 1 {
      assert s1[i + 1] == s2[i + 1];
    }
  }

  /** The decision loop: keeps scene i when its verdict holds, in order. */
  method DecideAds(scenes: seq<TimeRange>, scores: seq<real>, baseThresh: real, boost: real)
    returns (predsFinal: seq<TimeRange>)
    requires |scores| == |scenes|
    ensures predsFinal == Select(scenes, HysteresisVerdicts(scores, baseThresh, boost))
  {
    ghost var keep := HysteresisVerdicts(scores, baseThresh, boost);
    predsFinal := [];
    for i := 0 to |scores|
      invariant predsFinal == Select(scenes[..i], keep[..i])
    {
      var score := scores[i];
      var prevAd := i > 0 && scores[i - 1] >= baseThresh;
      var nextAd := i < |scores| - 1 && scores[i + 1] >= baseThresh;
      var isIsolated := !prevAd && !nextAd;
      var isAd := IsAdvertisement(score, baseThresh, boost, isIsolated);
      if isAd {
        predsFinal := predsFinal + [scenes[i]];
      }
      assert scenes[..i + 1][..i] == scenes[..i];
      assert keep[..i + 1][..i] == keep[..i];
    }
    assert scenes[..|scenes|] == scenes;
    assert keep[..|scenes|] == keep;
  }

  /** The list comprehension `[preds[(start, end)] for (start, end) in scenes]`:
      the score of every scene, in scene order, or None (a KeyError) when some
      scene has no score. */
  function AlignScores(scenes: seq<TimeRange>, preds: map<TimeRange, real>): (scores: Option<seq<real>>)
    ensures scores.Some? <==> forall i :: 0 <= i < |scenes| ==> scenes[i] in preds
    ensures scores.Some? ==>
      (|scores.value| == |scenes| && forall i :: 0 <= i < |scenes| ==> scores.value[i] == preds[scenes[i]])
  {
    if scenes == [] then Some([])
    else if scenes[0] !in preds then None
    else
      match AlignScores(scenes[1..], preds)
      case None => None
      case Some(rest) => Some([preds[scenes[0]]] + rest)
  }

  /** _analyze_video, from the detected scenes on: score every scene, merge
      the per-scene maps, align the scores with the scenes and keep the scenes
      the hysteresis rule accepts. */
  method AnalyzeVideo(read: FrameReader, scenes: seq<TimeRange>) returns (predsFinal: seq<TimeRange>)
    ensures predsFinal == Select(scenes, HysteresisVerdicts(SceneScores(read, scenes), BaseThresh, Boost))
  {
    if scenes == [] {
      return [];
    }
    var preds: map<TimeRange, real> := map[];
    for i := 0 to |scenes|
      invariant forall j :: 0 <= j < i ==> scenes[j] in preds
      invariant forall r :: r in preds ==> preds[r] == UnweightedScore(read, r.start, r.end, DefaultInterval)
    {
      var result := DetectAdScenesFromSegmentsAndGetAllResults(read, [scenes[i]]);
      preds := preds + result;
    }
    var aligned := AlignScores(scenes, preds);
    var scores := aligned.value;
    assert scores == SceneScores(read, scenes);
    predsFinal := DecideAds(scenes, scores, BaseThresh, Boost);
  }

  /** With scores [50, 0, 0] only the first scene is reported: the strong
      first scene lowers the bar for the second, but 0 is below even that,
      and the third scene is isolated. */
  lemma ExampleOnlyStrongScene(a: TimeRange, b: TimeRange, c: TimeRange)
    ensures Select([a, b, c], HysteresisVerdicts([50.0, 0.0, 0.0], BaseThresh, Boost)) == [a]
  {
    var keep := HysteresisVerdicts([50.0, 0.0, 0.0], BaseThresh, Boost);
    assert keep == [true, false, false];
    assert [a, b, c][..2] == [a, b] && keep[..2] == [true, false];
    assert [a, b][..1] == [a] && [true, false][..1] == [true];
    assert [a][..0] == [] && [true][..0] == [];
    assert Select([a], [true]) == [a];
    assert Select([a, b], [true, false]) == [a];
  }

  /** With scores [20, 13, 5] every scene is reported: each one has a
      neighbour at or above 12.5, so each is judged against 2.5. */
  lemma ExampleWholeRun(a: TimeRange, b: TimeRange, c: TimeRange)
    ensures Select([a, b, c], HysteresisVerdicts([20.0, 13.0, 5.0], BaseThresh, Boost)) == [a, b, c]
  {
    var keep := HysteresisVerdicts([20.0, 13.0, 5.0], BaseThresh, Boost);
    assert keep == [true, true, true];
    assert [a, b, c][..2] == [a, b] && keep[..2] == [true, true];
    assert [a, b][..1] == [a] && [true, true][..1] == [true];
    assert [a][..0] == [] && [true][..0] == [];
    assert Select([a], [true]) == [a];
    assert Select([a, b], [true, true]) == [a, b];
  }

  /** With scores [3, 20, 3] the weak neighbours of the strong scene are
      pulled in as well. */
  lemma ExampleWeakNeighbours(a: TimeRange, b: TimeRange, c: TimeRange)
    ensures Select([a, b, c], HysteresisVerdicts([3.0, 20.0, 3.0], BaseThresh, Boost)) == [a, b, c]
  {
    var keep := HysteresisVerdicts([3.0, 20.0, 3.0], BaseThresh, Boost);
    assert keep == [true, true, true];
    assert [a, b, c][..2] == [a, b] && keep[..2] == [true, true];
    assert [a, b][..1] == [a] && [true, true][..1] == [true];
    assert [a][..0] == [] && [true][..0] == [];
    assert Select([a], [true]) == [a];
    assert Select([a, b], [true, true]) == [a, b];
  }
}
