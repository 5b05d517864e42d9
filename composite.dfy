/**
 * Putting the background where the refined mask is set: bitwise_not,
 * two masked bitwise_and calls and a unit-weight addWeighted, and the
 * whole per-frame pipeline from the camera frame to the output frame.
 */
module Composite {
  import opened Wrappers
  import opened Image
  import opened Calibration
  import Segment
  import Morphology

  /** Why OpenCV raises instead of producing an output frame. */
  datatype Fault =
    | NoBackground   // the background is None
    | SizeMismatch   // the background's shape differs from the frame's

  /** cv2.bitwise_not on a mask. */
  function Invert(m: Mask): (r: Mask)
    ensures SameShape(r, m)
    ensures forall i, j :: 0 <= i < |m| && 0 <= j < |m[i]| ==> r[i][j] as int + m[i][j] as int == 255
  {
    seq(|m|, i requires 0 <= i < |m| =>
      seq(|m[i]|, j requires 0 <= j < |m[i]| => 255 - m[i][j]))
  }

  /** cv2.bitwise_and(f, f, mask=m): the pixel where the mask is nonzero, black elsewhere. */
  function MaskedCopy(f: Frame, m: Mask): (r: Frame)
    requires SameShape(f, m)
    ensures SameShape(r, f)
    ensures forall i, j :: 0 <= i < |f| && 0 <= j < |f[i]| ==>
      r[i][j] == if m[i][j] != 0 then f[i][j] else BLACK
  {
    seq(|f|, i requires 0 <= i < |f| =>
      seq(|f[i]|, j requires 0 <= j < |f[i]| => if m[i][j] != 0 then f[i][j] else BLACK))
  }

  /** saturate_cast<uchar>(a + b), the 8-bit sum addWeighted computes with weights 1, 1 and bias 0. */
  function SaturatedAdd(a: byte, b: byte): (r: byte)
    ensures a as int + b as int <= 255 ==> r as int == a as int + b as int
    ensures 255 < a as int + b as int ==> r == 255
  {
    if a as int + b as int <= 255 then a + b else 255
  }

  function AddPixels(p: Pixel, q: Pixel): Pixel {
    Pixel(SaturatedAdd(p.c0, q.c0), SaturatedAdd(p.c1, q.c1), SaturatedAdd(p.c2, q.c2))
  }

  /** cv2.addWeighted(a, 1, b, 1, 0). */
  function AddWeighted(a: Frame, b: Frame): (r: Frame)
    requires SameShape(a, b)
    ensures SameShape(r, a)
  {
    seq(|a|, i requires 0 <= i < |a| =>
      seq(|a[i]|, j requires 0 <= j < |a[i]| => AddPixels(a[i][j], b[i][j])))
  }

  /** The part of the frame kept outside the cloak (hp.py's keep). */
  function Keep(frame: Frame, mask: Mask): (r: Frame)
    requires SameShape(frame, mask)
    ensures SameShape(r, frame)
    ensures forall i, j :: 0 <= i < |frame| && 0 <= j < |frame[i]| ==>
      r[i][j] == if mask[i][j] != 255 then frame[i][j] else BLACK
  {
    MaskedCopy(frame, Invert(mask))
  }

  /** The part of the background shown through the cloak (hp.py's cloak). */
  function Cloak(background: Frame, mask: Mask): (r: Frame)
    requires SameShape(background, mask)
    ensures SameShape(r, background)
    ensures forall i, j :: 0 <= i < |background| && 0 <= j < |background[i]| ==>
      r[i][j] == if mask[i][j] != 0 then background[i][j] else BLACK
  {
    MaskedCopy(background, mask)
  }

  function Compose(frame: Frame, background: Frame, mask: Mask): (r: Frame)
    requires SameShape(frame, mask) && SameShape(background, mask)
    ensures SameShape(r, frame)
  {
    AddWeighted(Keep(frame, mask), Cloak(background, mask))
  }

  /**
   * With a binary mask, keep and cloak are never both non-black at the same
   * position, so no channel sum exceeds 255 and the add never saturates.
   */
  lemma PartsDisjoint(frame: Frame, background: Frame, mask: Mask)
    requires SameShape(frame, mask) && SameShape(background, mask) && Binary(mask)
    ensures forall i, j :: 0 <= i < |mask| && 0 <= j < |mask[i]| ==>
      (Keep(frame, mask)[i][j] == BLACK || Cloak(background, mask)[i][j] == BLACK)
    ensures forall i, j :: 0 <= i < |mask| && 0 <= j < |mask[i]| ==>
      Keep(frame, mask)[i][j].c0 as int + Cloak(background, mask)[i][j].c0 as int <= 255 &&
      Keep(frame, mask)[i][j].c1 as int + Cloak(background, mask)[i][j].c1 as int <= 255 &&
      Keep(frame, mask)[i][j].c2 as int + Cloak(background, mask)[i][j].c2 as int <= 255
  {
    var inv := Invert(mask);
    forall i, j | 0 <= i < |mask| && 0 <= j < |mask[i]|
      ensures Keep(frame, mask)[i][j] == BLACK || Cloak(background, mask)[i][j] == BLACK
    {
      assert inv[i][j] as int + mask[i][j] as int == 255;
    }
  }

  /**
   * Compositing with a binary mask is an exact per-pixel choice: the
   * background where the mask is 255, the frame where it is 0.
   */
  lemma ComposeSelects(frame: Frame, background: Frame, mask: Mask)
    requires SameShape(frame, mask) && SameShape(background, mask) && Binary(mask)
    ensures forall i, j :: 0 <= i < |mask| && 0 <= j < |mask[i]| ==>
      Compose(frame, background, mask)[i][j] ==
        if mask[i][j] == 255 then background[i][j] else frame[i][j]
  {
    var inv := Invert(mask);
    var out := Compose(frame, background, mask);
    forall i, j | 0 <= i < |mask| && 0 <= j < |mask[i]|
      ensures out[i][j] == if mask[i][j] == 255 then background[i][j] else frame[i][j]
    {
      assert inv[i][j] as int + mask[i][j] as int == 255;
      assert out[i][j] == AddPixels(Keep(frame, mask)[i][j], Cloak(background, mask)[i][j]);
    }
  }

  /** An empty mask leaves the frame untouched. */
  lemma ComposeEmptyMask(frame: Frame, background: Frame, mask: Mask)
    requires SameShape(frame, mask) && SameShape(background, mask) && AllZero(mask)
    ensures Compose(frame, background, mask) == frame
  {
    var out := Compose(frame, background, mask);
    ComposeSelects(frame, background, mask);
    forall i | 0 <= i < |frame|
      ensures out[i] == frame[i]
    {
      assert |out[i]| == |frame[i]|;
      forall j | 0 <= j < |frame[i]|
        ensures out[i][j] == frame[i][j]
      {
        assert mask[i][j] == 0;
      }
    }
  }

  /**
   * hp.py:75-82 of the frame loop as OpenCV runs them: a None background or
   * one whose shape differs from the frame makes bitwise_and raise.
   */
  function ComposeChecked(frame: Frame, background: Option<Frame>, mask: Mask): (r: Result<Frame, Fault>)
    requires SameShape(mask, frame)
    ensures background.None? ==> r == Err(NoBackground)
    ensures background.Some? && !SameShape(background.value, frame) ==> r == Err(SizeMismatch)
    ensures background.Some? && SameShape(background.value, frame) ==> r.Ok? && SameShape(r.value, frame)
  {
    if background.None? then Err(NoBackground)
    else if !SameShape(background.value, frame) then Err(SizeMismatch)
    else Ok(Compose(frame, background.value, mask))
  }

  /** The raw mask of one frame: inRange on its HSV conversion. */
  function RawMask(frame: Frame, conv: Pixel -> Pixel, bounds: (Bound, Bound)): (m: Mask)
    ensures SameShape(m, frame)
  {
    Segment.InRange(Convert(frame, conv), bounds.0, bounds.1)
  }

  /** One pass of the frame loop from the mirrored camera frame to the output frame. */
  function CloakFrame(frame: Frame, conv: Pixel -> Pixel, background: Option<Frame>, bounds: (Bound, Bound))
    : (r: Result<Frame, Fault>)
    ensures background.None? ==> r == Err(NoBackground)
    ensures background.Some? && !SameShape(background.value, frame) ==> r == Err(SizeMismatch)
    ensures background.Some? && SameShape(background.value, frame) ==> r.Ok? && SameShape(r.value, frame)
  {
    ComposeChecked(frame, background, Morphology.Refine(RawMask(frame, conv, bounds)))
  }

  /**
   * Every output pixel is either the background pixel (where the refined
   * mask is set) or the frame pixel (where it is clear); a background pixel
   * only appears within one pixel of a pixel that is in range.
   */
  lemma CloakFrameSelects(frame: Frame, conv: Pixel -> Pixel, background: Frame, bounds: (Bound, Bound))
    requires SameShape(background, frame)
    ensures CloakFrame(frame, conv, Some(background), bounds).Ok?
    ensures var out := CloakFrame(frame, conv, Some(background), bounds).value;
      var refined := Morphology.Refine(RawMask(frame, conv, bounds));
      SameShape(out, frame) && Binary(refined) &&
      forall i, j :: 0 <= i < |frame| && 0 <= j < |frame[i]| ==>
        out[i][j] == (if refined[i][j] == 255 then background[i][j] else frame[i][j])
    ensures var out := CloakFrame(frame, conv, Some(background), bounds).value;
      var near := Morphology.Dilate(RawMask(frame, conv, bounds));
      forall i, j :: 0 <= i < |frame| && 0 <= j < |frame[i]| && out[i][j] != frame[i][j] ==> near[i][j] == 255
  {
    var raw := RawMask(frame, conv, bounds);
    var refined := Morphology.Refine(raw);
    Morphology.RefineBinary(raw);
    Morphology.RefineWithinDilatedRaw(raw);
    ComposeSelects(frame, background, refined);
    Morphology.DilateBinary(raw);
  }

  /** A frame with no pixel in range comes out unchanged, whatever the background. */
  lemma NothingInRangeKeepsFrame(frame: Frame, conv: Pixel -> Pixel, background: Frame, bounds: (Bound, Bound))
    requires SameShape(background, frame)
    requires forall i, j :: 0 <= i < |frame| && 0 <= j < |frame[i]| ==>
      !Segment.Within(conv(frame[i][j]), bounds.0, bounds.1)
    ensures AllZero(RawMask(frame, conv, bounds))
    ensures AllZero(Morphology.Refine(RawMask(frame, conv, bounds)))
    ensures CloakFrame(frame, conv, Some(background), bounds) == Ok(frame)
  {
    var raw := RawMask(frame, conv, bounds);
    Morphology.RefineEmpty(raw);
    ComposeEmptyMask(frame, background, Morphology.Refine(raw));
  }

  /**
   * Where the raw mask is set on a whole 5x5 block (the image border
   * counting as set), the output shows the background.
   */
  lemma SolidBlockShowsBackground(frame: Frame, conv: Pixel -> Pixel, background: Frame, bounds: (Bound, Bound),
                                  i: int, j: int)
    requires SameShape(background, frame)
    requires 0 <= i < |frame| && 0 <= j < |frame[i]|
    requires Morphology.Solid(RawMask(frame, conv, bounds), i, j, 2)
    ensures CloakFrame(frame, conv, Some(background), bounds).Ok?
    ensures CloakFrame(frame, conv, Some(background), bounds).value[i][j] == background[i][j]
  {
    var raw := RawMask(frame, conv, bounds);
    Morphology.SolidBlockSurvives(raw, i, j);
    CloakFrameSelects(frame, conv, background, bounds);
  }
}
