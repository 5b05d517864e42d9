/** cv2.inRange on a three-channel HSV image with a lower and an upper bound. */
module Segment {
  import opened Image
  import opened Calibration

  /** The pixel lies inside the range on all three channels, bounds included. */
  predicate Within(p: Pixel, lo: Bound, hi: Bound) {
    lo.h <= p.c0 <= hi.h && lo.s <= p.c1 <= hi.s && lo.v <= p.c2 <= hi.v
  }

  function InRangeAt(p: Pixel, lo: Bound, hi: Bound): byte {
    if Within(p, lo, hi) then 255 else 0
  }

  /** The raw mask: 255 exactly where every channel is inside its interval, 0 elsewhere. */
  function InRange(hsv: Frame, lo: Bound, hi: Bound): (m: Mask)
    ensures SameShape(m, hsv)

    ensures forall i, j :: 0 <= i < |hsv| && 0 <= j < |hsv[i]| ==>
      (m[i][j] == 0 || m[i][j] == 255) &&
      (m[i][j] == 255 <==>
         lo.h <= hsv[i][j].c0 <= hi.h && lo.s <= hsv[i][j].c1 <= hi.s && lo.v <= hsv[i][j].c2 <= hi.v)
  {
    seq(|hsv|, i requires 0 <= i < |hsv| =>
      seq(|hsv[i]|, j requires 0 <= j < |hsv[i]| => InRangeAt(hsv[i][j], lo, hi)))
  }

  /** Widening every channel interval never removes a pixel from the raw mask. */
  lemma WideningKeepsPixels(hsv: Frame, lo: Bound, hi: Bound, lo': Bound, hi': Bound)
    requires lo'.h <= lo.h && lo'.s <= lo.s && lo'.v <= lo.v
    requires hi.h <= hi'.h && hi.s <= hi'.s && hi.v <= hi'.v
    ensures Below(InRange(hsv, lo, hi), InRange(hsv, lo', hi'))
  {
  }

  /** A channel whose lower bound exceeds its upper bound selects nothing. */
  lemma CrossedBoundsEmpty(hsv: Frame, lo: Bound, hi: Bound)
    requires lo.h > hi.h || lo.s > hi.s || lo.v > hi.v
    ensures AllZero(InRange(hsv, lo, hi))
  {
  }
}
