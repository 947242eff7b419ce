/** Keeping the scenes that a per-scene verdict accepts, in scene order.
    Both the threshold filter of app/frame_classifier.py and the hysteresis
    decision of app/gui.py append `scenes[i]` exactly when the verdict for
    index `i` is true; `Select` is that result. */
module Selection {

  /** The elements of `s` whose flag in `keep` is set, in their original order. */
  function Select<T>(s: seq<T>, keep: seq<bool>): (r: seq<T>)
    requires |s| == |keep|
    ensures |r| <= |s|
  {
    if s == [] then []
    else Select(s[..|s| - 1], keep[..|s| - 1]) + (if keep[|s| - 1] then [s[|s| - 1]] else [])
  }

  /** The positions whose flag is set, in increasing order. */
  function SelectedIndices(keep: seq<bool>): (idx: seq<nat>)
  {
    if keep == [] then []
    else SelectedIndices(keep[..|keep| - 1]) + (if keep[|keep| - 1] then [|keep| - 1] else [])
  }

  ghost predicate StrictlyIncreasing(idx: seq<nat>)
  {
    forall a, b :: 0 <= a < b < |idx| ==> idx[a] < idx[b]
  }

  lemma {:induction false} SelectLength<T>(s: seq<T>, keep: seq<bool>)
    requires |s| == |keep|
    ensures |Select(s, keep)| == |SelectedIndices(keep)|
  {
    if s != [] {
      var n := |s| - 1;
      SelectLength(s[..n], keep[..n]);
    }
  }

  lemma {:induction false} SelectedIndicesFlagged(keep: seq<bool>)
    ensures var idx := SelectedIndices(keep);
      && StrictlyIncreasing(idx)
      && (forall k :: 0 <= k < |idx| ==> idx[k] < |keep| && keep[idx[k]])
  {
    if keep != [] {
      var n := |keep| - 1;
      SelectedIndicesFlagged(keep[..n]);
      var idx0 := SelectedIndices(keep[..n]);
      assert forall k :: 0 <= k < |idx0| ==> keep[..n][idx0[k]] == keep[idx0[k]];
    }
  }

  lemma {:induction false} SelectedIndicesComplete(keep: seq<bool>)
    ensures forall i :: 0 <= i < |keep| && keep[i] ==> i in SelectedIndices(keep)
  {
    if keep != [] {
      var n := |keep| - 1;
      SelectedIndicesComplete(keep[..n]);
      forall i | 0 <= i < |keep| && keep[i]
        ensures i in SelectedIndices(keep)
      {
        if i < n {
          assert keep[..n][i];
        }
      }
    }
  }

  lemma {:induction false} SelectAt<T>(s: seq<T>, keep: seq<bool>)
    requires |s| == |keep|
    ensures |Select(s, keep)| == |SelectedIndices(keep)|
    ensures forall k :: 0 <= k < |Select(s, keep)| ==>
      SelectedIndices(keep)[k] < |s| && Select(s, keep)[k] == s[SelectedIndices(keep)[k]]
  {
    SelectLength(s, keep);
    if s != [] {
      var n := |s| - 1;
      SelectAt(s[..n], keep[..n]);
      var r0, idx0 := Select(s[..n], keep[..n]), SelectedIndices(keep[..n]);
      forall k | 0 <= k < |Select(s, keep)|
        ensures SelectedIndices(keep)[k] < |s| && Select(s, keep)[k] == s[SelectedIndices(keep)[k]]
      {
        if k < |r0| {
          assert Select(s, keep)[k] == r0[k] == s[..n][idx0[k]];
          assert SelectedIndices(keep)[k] == idx0[k];
        }
      }
    }
  }

  /** `Select` picks exactly the flagged positions, each once, in increasing
      order: the result is an order-preserving subsequence of `s` whose
      entries are the flagged ones and no others. */
  lemma SelectIsFlaggedSubsequence<T>(s: seq<T>, keep: seq<bool>)
    requires |s| == |keep|
    ensures var idx := SelectedIndices(keep);
      && |Select(s, keep)| == |idx|
      && StrictlyIncreasing(idx)
      && (forall k :: 0 <= k < |idx| ==> idx[k] < |s| && keep[idx[k]] && Select(s, keep)[k] == s[idx[k]])
      && (forall i :: 0 <= i < |keep| && keep[i] ==> i in idx)
  {
    SelectAt(s, keep);
    SelectedIndicesFlagged(keep);
    SelectedIndicesComplete(keep);
  }

  /** Membership: a value is selected iff it stands at some flagged position. */
  lemma SelectMembership<T>(s: seq<T>, keep: seq<bool>, x: T)
    requires |s| == |keep|
    ensures x in Select(s, keep) <==> exists i :: 0 <= i < |s| && keep[i] && s[i] == x
  {
    SelectIsFlaggedSubsequence(s, keep);
    var idx := SelectedIndices(keep);
    if x in Select(s, keep) {
      var k :| 0 <= k < |Select(s, keep)| && Select(s, keep)[k] == x;
      assert keep[idx[k]] && s[idx[k]] == x;
    }
    if exists i :: 0 <= i < |s| && keep[i] && s[i] == x {
      var i :| 0 <= i < |s| && keep[i] && s[i] == x;
      assert i in idx;
      var k :| 0 <= k < |idx| && idx[k] == i;
      assert Select(s, keep)[k] == x;
    }
  }
}
