/**
 * Images as the script sees them: numpy arrays of 8-bit values.
 * A camera frame (BGR) and its HSV conversion are grids of three-channel
 * pixels; a mask is a grid of single 8-bit values.
 */
module Image {
  /** An 8-bit channel value (numpy uint8). */
  type byte = x: int | 0 <= x < 256

  /** One pixel of a three-channel 8-bit image; c0, c1, c2 are the channels in storage order. */
  datatype Pixel = Pixel(c0: byte, c1: byte, c2: byte)

  const BLACK: Pixel := Pixel(0, 0, 0)

  type Frame = seq<seq<Pixel>>
  type Mask = seq<seq<byte>>

  /** Two grids have the same number of rows and each row the same length. */
  predicate SameShape<A, B>(a: seq<seq<A>>, b: seq<seq<B>>) {
    |a| == |b| && forall i :: 0 <= i < |a| ==> |a[i]| == |b[i]|
  }

  /** Every mask value is 0 or 255, as inRange produces. */
  predicate Binary(m: Mask) {
    forall i, j :: 0 <= i < |m| && 0 <= j < |m[i]| ==> m[i][j] == 0 || m[i][j] == 255
  }

  predicate AllZero(m: Mask) {
    forall i, j :: 0 <= i < |m| && 0 <= j < |m[i]| ==> m[i][j] == 0
  }

  /** a is pointwise at most b; for binary masks, every pixel set in a is set in b. */
  predicate Below(a: Mask, b: Mask) {
    SameShape(a, b) && forall i, j :: 0 <= i < |a| && 0 <= j < |a[i]| ==> a[i][j] <= b[i][j]
  }

  lemma BelowTransitive(a: Mask, b: Mask, c: Mask)
    requires Below(a, b) && Below(b, c)
    ensures Below(a, c)
  {
  }

  function ReverseRow<A>(row: seq<A>): (r: seq<A>)
    ensures |r| == |row|
  {
    seq(|row|, j requires 0 <= j < |row| => row[|row| - 1 - j])
  }

  /** cv2.flip(frame, 1): mirror around the vertical axis, reversing every row. */
  function Mirror(f: Frame): (r: Frame)
    ensures SameShape(r, f)
  {
    seq(|f|, i requires 0 <= i < |f| => ReverseRow(f[i]))
  }

  /** Pixel j of a mirrored row is pixel width - 1 - j of the original row. */
  lemma MirrorAt(f: Frame, i: nat, j: nat)
    requires i < |f| && j < |f[i]|
    ensures Mirror(f)[i][j] == f[i][|f[i]| - 1 - j]
  {
  }

  /** Mirroring twice gives back the frame. */
  lemma MirrorInvolution(f: Frame)
    ensures Mirror(Mirror(f)) == f
  {
    var g := Mirror(Mirror(f));
    forall i | 0 <= i < |f|
      ensures g[i] == f[i]
    {
      assert |g[i]| == |f[i]|;
      forall j | 0 <= j < |f[i]|
        ensures g[i][j] == f[i][j]
      {
        var n := |f[i]|;
        MirrorAt(Mirror(f), i, j);
        MirrorAt(f, i, n - 1 - j);
      }
    }
  }

  /** cv2.cvtColor applied pixel by pixel with the conversion conv. */
  function Convert(f: Frame, conv: Pixel -> Pixel): (r: Frame)
    ensures SameShape(r, f)
    ensures forall i, j :: 0 <= i < |f| && 0 <= j < |f[i]| ==> r[i][j] == conv(f[i][j])
  {
    seq(|f|, i requires 0 <= i < |f| => seq(|f[i]|, j requires 0 <= j < |f[i]| => conv(f[i][j])))
  }
}
