/**
 * The one-shot entrance-animation flag each content section keeps: an
 * intersection observer sets it to true the first time the section
 * intersects the viewport, and nothing ever sets it back to false.
 *
 * A callback receives a batch of entries, each given by its
 * `isIntersecting`, but destructures only the first one.
 */
module Visibility {

  /** A batch the observer can deliver: never empty. */
  predicate Delivered(batch: seq<bool>) {
    |batch| > 0
  }

  /** The observer callback: only the batch's first entry is read. */
  function OnIntersection(isVisible: bool, batch: seq<bool>): (r: bool)
    requires Delivered(batch)
    ensures isVisible ==> r
    ensures batch[0] ==> r
    ensures r ==> isVisible || batch[0]
  {
    if batch[0] then true else isVisible
  }

  /** The flag after a sequence of observer callbacks. */
  function Observe(isVisible: bool, batches: seq<seq<bool>>): bool
    requires forall i :: 0 <= i < |batches| ==> Delivered(batches[i])
    decreases |batches|
  {
    if |batches| == 0 then isVisible
    else Observe(OnIntersection(isVisible, batches[0]), batches[1..])
  }

  /** Once visible, always visible. */
  lemma {:induction false} StaysVisible(batches: seq<seq<bool>>)
    requires forall i :: 0 <= i < |batches| ==> Delivered(batches[i])
    ensures Observe(true, batches)
    decreases |batches|
  {
    if |batches| > 0 {
      StaysVisible(batches[1..]);
    }
  }

  /**
   * Starting hidden, the flag is set exactly when the first entry of some
   * callback's batch was intersecting.
   */
  lemma {:induction false} VisibleIffIntersected(batches: seq<seq<bool>>)
    requires forall i :: 0 <= i < |batches| ==> Delivered(batches[i])
    ensures Observe(false, batches) <==> exists i :: 0 <= i < |batches| && batches[i][0]
    decreases |batches|
  {
    if |batches| > 0 {
      if batches[0][0] {
        StaysVisible(batches[1..]);
      } else {
        VisibleIffIntersected(batches[1..]);
        if exists i :: 0 <= i < |batches| && batches[i][0] {
          var i :| 0 <= i < |batches| && batches[i][0];
          assert batches[1..][i - 1][0];
        }
        if exists j :: 0 <= j < |batches[1..]| && batches[1..][j][0] {
          var j :| 0 <= j < |batches[1..]| && batches[1..][j][0];
          assert batches[j + 1][0];
        }
      }
    }
  }

  /** An intersecting entry after the first in a batch is ignored. */
  lemma LaterEntriesIgnored(isVisible: bool, batch: seq<bool>)
    requires Delivered(batch) && !batch[0]
    ensures OnIntersection(isVisible, batch) == isVisible
    ensures OnIntersection(false, [false, true]) == false
  {
  }
}
