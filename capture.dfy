/**
 * The camera as a finite feed of read results, and capture_background:
 * a bounded run of reads where the last successful frame wins.
 */
module Capture {
  import opened Wrappers
  import opened Image

  /** The result of read number k: a frame, or None once the feed has ended. */
  function FeedAt(feed: seq<Option<Frame>>, k: nat): Option<Frame> {
    if k < |feed| then feed[k] else None
  }

  /** The n read results starting at read number start. */
  function Reads(feed: seq<Option<Frame>>, start: nat, n: nat): (rs: seq<Option<Frame>>)
    ensures |rs| == n
    ensures forall k :: 0 <= k < n ==> rs[k] == FeedAt(feed, start + k)
  {
    seq(n, k requires 0 <= k < n => FeedAt(feed, start + k))
  }

  /** cv2.VideoCapture: whether it opened, the reads it will deliver, how many were made. */
  class Camera {
    const isOpened: bool
    const feed: seq<Option<Frame>>
    var attempts: nat
    var released: bool

    constructor (isOpened: bool, feed: seq<Option<Frame>>)
      ensures this.isOpened == isOpened && this.feed == feed
      ensures attempts == 0 && !released
    {
      this.isOpened := isOpened;
      this.feed := feed;
      attempts := 0;
      released := false;
    }

    /** cap.read(): the next result of the feed; a read after its end fails. */
    method Read() returns (r: Option<Frame>)
      modifies this`attempts
      ensures attempts == old(attempts) + 1
      ensures r == FeedAt(feed, old(attempts))
    {
      r := FeedAt(feed, attempts);
      attempts := attempts + 1;
    }

    /** cap.release(). */
    method Release()
      modifies this`released
      ensures released
    {
      released := true;
    }
  }

  function Orient(f: Frame, flip: bool): Frame {
    if flip then Mirror(f) else f
  }

  /** The last successful read of rs, mirrored when flip is set; None if every read failed. */
  function LastGood(rs: seq<Option<Frame>>, flip: bool): (r: Option<Frame>)
    ensures r.Some? ==> exists k :: 0 <= k < |rs| && rs[k].Some? && r.value == Orient(rs[k].value, flip)
  {
    if rs == [] then None
    else if rs[|rs| - 1].Some? then Some(Orient(rs[|rs| - 1].value, flip))
    else LastGood(rs[..|rs| - 1], flip)
  }

  /** The capture fails exactly when every read in it fails. */
  lemma {:induction false} LastGoodNoneIff(rs: seq<Option<Frame>>, flip: bool)
    ensures LastGood(rs, flip).None? <==> forall k :: 0 <= k < |rs| ==> rs[k].None?
  {
    if rs != [] && rs[|rs| - 1].None? {
      var front := rs[..|rs| - 1];
      LastGoodNoneIff(front, flip);
      assert forall k :: 0 <= k < |front| ==> front[k] == rs[k];
    }
  }

  /** Read k succeeded and every read after it failed. */
  predicate IsLastSuccess(rs: seq<Option<Frame>>, k: int) {
    0 <= k < |rs| && rs[k].Some? && forall j :: k < j < |rs| ==> rs[j].None?
  }

  /** A successful capture is the (oriented) frame of a successful read after which every read failed. */
  lemma {:induction false} LastGoodIsLast(rs: seq<Option<Frame>>, flip: bool)
    requires LastGood(rs, flip).Some?
    ensures exists k :: IsLastSuccess(rs, k) && LastGood(rs, flip).value == Orient(rs[k].value, flip)
  {
    var n := |rs|;
    if rs[n - 1].Some? {
      assert IsLastSuccess(rs, n - 1) && LastGood(rs, flip).value == Orient(rs[n - 1].value, flip);
    } else {
      var front := rs[..n - 1];
      LastGoodIsLast(front, flip);
      var k :| 0 <= k < |front| && front[k].Some? &&
        IsLastSuccess(front, k) && LastGood(front, flip).value == Orient(front[k].value, flip);
      assert rs[k] == front[k];
      assert forall j :: k < j < n ==> rs[j].None? by {
        forall j | k < j < n ensures rs[j].None? {
          if j < n - 1 { assert rs[j] == front[j]; }
        }
      }
    }
  }

  /** Conversely, the last successful read, oriented, is what the capture returns. */
  lemma {:induction false} LastSuccessIsLastGood(rs: seq<Option<Frame>>, k: int, flip: bool)
    requires IsLastSuccess(rs, k)
    ensures LastGood(rs, flip) == Some(Orient(rs[k].value, flip))
    decreases |rs|
  {
    var n := |rs|;
    if k < n - 1 {
      var front := rs[..n - 1];
      assert IsLastSuccess(front, k) by {
        forall j | k < j < |front| ensures front[j].None? {
          assert front[j] == rs[j];
        }
      }
      LastSuccessIsLastGood(front, k, flip);
    }
  }

  /** Appending one read: a success replaces the result, a failure keeps it. */
  lemma LastGoodSnoc(rs: seq<Option<Frame>>, r: Option<Frame>, flip: bool)
    ensures LastGood(rs + [r], flip) == if r.Some? then Some(Orient(r.value, flip)) else LastGood(rs, flip)
  {
    assert (rs + [r])[..|rs|] == rs;
  }

  /**
   * capture_background: exactly numFrames reads, failures skipped, each
   * success (mirrored when flip is set) replacing the previous one.
   */
  method CaptureBackground(cap: Camera, numFrames: nat, flip: bool) returns (bg: Option<Frame>)
    modifies cap`attempts
    ensures cap.attempts == old(cap.attempts) + numFrames
    ensures bg == LastGood(Reads(cap.feed, old(cap.attempts), numFrames), flip)
  {
    var start := cap.attempts;
    bg := None;
    for i := 0 to numFrames
      invariant cap.attempts == start + i
      invariant bg == LastGood(Reads(cap.feed, start, i), flip)
    {
      var r := cap.Read();
      LastGoodSnoc(Reads(cap.feed, start, i), r, flip);
      assert Reads(cap.feed, start, i + 1) == Reads(cap.feed, start, i) + [r];
      if r.None? {
        continue;
      }
      var frame := r.value;
      if flip {
        frame := Mirror(frame);
      }
      bg := Some(frame);
    }
  }
}
