/**
 * Mask cleanup with a 3x3 all-ones kernel anchored at its centre:
 * erosion takes the minimum and dilation the maximum over the pixel's
 * neighbours that lie inside the image (out-of-image neighbours are
 * neutral, so they never decide the result).
 */
module Morphology {
  import opened Image

  /** Row and column offsets of the 3x3 neighbourhood, row by row; index 4 is the centre. */
  const Offsets: seq<(int, int)> :=
    [(-1, -1), (-1, 0), (-1, 1), (0, -1), (0, 0), (0, 1), (1, -1), (1, 0), (1, 1)]

  /** The value at (i, j), or the neutral border value outside the image. */
  function At(m: Mask, i: int, j: int, border: byte): byte {
    if 0 <= i < |m| && 0 <= j < |m[i]| then m[i][j] else border
  }

  function Neighbourhood(m: Mask, i: int, j: int, border: byte): (s: seq<byte>)
    ensures |s| == 9
  {
    seq(9, k requires 0 <= k < 9 => At(m, i + Offsets[k].0, j + Offsets[k].1, border))
  }

  /** The smallest element: it occurs in s and nothing in s is smaller. */
  function MinOf(s: seq<byte>): (r: byte)
    requires |s| > 0
    ensures r in s
    ensures forall k :: 0 <= k < |s| ==> r <= s[k]
  {
    if |s| == 1 then s[0]
    else
      var t := MinOf(s[1..]);
      if s[0] <= t then s[0] else t
  }

  /** The largest element: it occurs in s and nothing in s is larger. */
  function MaxOf(s: seq<byte>): (r: byte)
    requires |s| > 0
    ensures r in s
    ensures forall k :: 0 <= k < |s| ==> s[k] <= r
  {
    if |s| == 1 then s[0]
    else
      var t := MaxOf(s[1..]);
      if t <= s[0] then s[0] else t
  }

  /** Erosion at (i, j): the minimum over the neighbourhood, the border counting as 255. */
  function ErodeAt(m: Mask, i: int, j: int): byte {
    MinOf(Neighbourhood(m, i, j, 255))
  }

  /** Dilation at (i, j): the maximum over the neighbourhood, the border counting as 0. */
  function DilateAt(m: Mask, i: int, j: int): byte {
    MaxOf(Neighbourhood(m, i, j, 0))
  }

  /** One 3x3 erosion (cv2.erode). */
  function Erode(m: Mask): (r: Mask)
    ensures SameShape(r, m)
  {
    seq(|m|, i requires 0 <= i < |m| => seq(|m[i]|, j requires 0 <= j < |m[i]| => ErodeAt(m, i, j)))
  }

  /** One 3x3 dilation (cv2.dilate). */
  function Dilate(m: Mask): (r: Mask)
    ensures SameShape(r, m)
  {
    seq(|m|, i requires 0 <= i < |m| => seq(|m[i]|, j requires 0 <= j < |m[i]| => DilateAt(m, i, j)))
  }

  /** morphologyEx(MORPH_OPEN, iterations=2): two erosions, then two dilations. */
  function Open(m: Mask): (r: Mask)
    ensures SameShape(r, m)
  {
    Dilate(Dilate(Erode(Erode(m))))
  }

  /** The full cleanup: the opening, then morphologyEx(MORPH_DILATE, iterations=1). */
  function Refine(m: Mask): (r: Mask)
    ensures SameShape(r, m)
  {
    Dilate(Open(m))
  }

  /** Erosion never sets a pixel: each result is at most the centre value. */
  lemma ErodeShrinks(m: Mask)
    ensures Below(Erode(m), m)
  {
    var e := Erode(m);
    forall i, j | 0 <= i < |e| && 0 <= j < |e[i]|
      ensures e[i][j] <= m[i][j]
    {
      assert Neighbourhood(m, i, j, 255)[4] == m[i][j];
    }
  }

  /** Dilation never clears a pixel: each result is at least the centre value. */
  lemma DilateGrows(m: Mask)
    ensures Below(m, Dilate(m))
  {
    var d := Dilate(m);
    forall i, j | 0 <= i < |m| && 0 <= j < |m[i]|
      ensures m[i][j] <= d[i][j]
    {
      assert Neighbourhood(m, i, j, 0)[4] == m[i][j];
    }
  }

  lemma MaxOfMonotone(s: seq<byte>, t: seq<byte>)
    requires |s| == |t| > 0
    requires forall k :: 0 <= k < |s| ==> s[k] <= t[k]
    ensures MaxOf(s) <= MaxOf(t)
  {
    var k :| 0 <= k < |s| && s[k] == MaxOf(s);
  }

  lemma MinOfMonotone(s: seq<byte>, t: seq<byte>)
    requires |s| == |t| > 0
    requires forall k :: 0 <= k < |s| ==> s[k] <= t[k]
    ensures MinOf(s) <= MinOf(t)
  {
    var k :| 0 <= k < |t| && t[k] == MinOf(t);
  }

  lemma DilateMonotone(a: Mask, b: Mask)
    requires Below(a, b)
    ensures Below(Dilate(a), Dilate(b))
  {
    forall i, j | 0 <= i < |a| && 0 <= j < |a[i]|
      ensures Dilate(a)[i][j] <= Dilate(b)[i][j]
    {
      MaxOfMonotone(Neighbourhood(a, i, j, 0), Neighbourhood(b, i, j, 0));
    }
  }

  lemma ErodeMonotone(a: Mask, b: Mask)
    requires Below(a, b)
    ensures Below(Erode(a), Erode(b))
  {
    forall i, j | 0 <= i < |a| && 0 <= j < |a[i]|
      ensures Erode(a)[i][j] <= Erode(b)[i][j]
    {
      MinOfMonotone(Neighbourhood(a, i, j, 255), Neighbourhood(b, i, j, 255));
    }
  }

  /** The offset (di, dj) sits at index 3 * di + dj + 4 of the neighbourhood. */
  lemma OffsetIndex(di: int, dj: int)
    requires -1 <= di <= 1 && -1 <= dj <= 1
    ensures Offsets[3 * di + dj + 4] == (di, dj)
  {
  }

  /**
   * The erosion at any neighbour q of p is at most m at p, since p is
   * also a neighbour of q.
   */
  lemma ErodeBelowNeighbour(m: Mask, i: int, j: int, qi: int, qj: int)
    requires 0 <= i < |m| && 0 <= j < |m[i]| && 0 <= qi < |m| && 0 <= qj < |m[qi]|
    requires -1 <= i - qi <= 1 && -1 <= j - qj <= 1
    ensures Erode(m)[qi][qj] <= m[i][j]
  {
    OffsetIndex(i - qi, j - qj);
    assert Neighbourhood(m, qi, qj, 255)[3 * (i - qi) + (j - qj) + 4] == m[i][j];
  }

  /** Any bound on every element bounds the maximum. */
  lemma MaxOfAtMost(s: seq<byte>, x: int)
    requires |s| > 0
    requires forall k :: 0 <= k < |s| ==> s[k] <= x
    ensures MaxOf(s) <= x
  {
    var w :| 0 <= w < |s| && s[w] == MaxOf(s);
  }

  /** Dilating the erosion at p gives at most m at p. */
  lemma DilateErodeAtBelow(m: Mask, i: int, j: int)
    requires 0 <= i < |m| && 0 <= j < |m[i]|
    ensures DilateAt(Erode(m), i, j) <= m[i][j]
  {
    var e := Erode(m);
    var s := Neighbourhood(e, i, j, 0);
    forall k | 0 <= k < 9
      ensures s[k] <= m[i][j]
    {
      var qi, qj := i + Offsets[k].0, j + Offsets[k].1;
      assert s[k] == At(e, qi, qj, 0);
      if 0 <= qi < |e| && 0 <= qj < |e[qi]| {
        ErodeBelowNeighbour(m, i, j, qi, qj);
      }
    }
    MaxOfAtMost(s, m[i][j]);
  }

  /**
   * A dilation after an erosion never sets a pixel: every neighbour q of p
   * has p among its own neighbours, so the erosion at q is at most m at p.
   */
  lemma DilateErodeShrinks(m: Mask)
    ensures Below(Dilate(Erode(m)), m)
  {
    var d := Dilate(Erode(m));
    forall i, j | 0 <= i < |m| && 0 <= j < |m[i]|
      ensures d[i][j] <= m[i][j]
    {
      DilateErodeAtBelow(m, i, j);
    }
  }

  /** The opening never sets a pixel that was clear in its input. */
  lemma OpenShrinks(m: Mask)
    ensures Below(Open(m), m)
  {
    var e := Erode(m);
    DilateErodeShrinks(e);
    DilateMonotone(Dilate(Erode(e)), e);
    DilateErodeShrinks(m);
    BelowTransitive(Open(m), Dilate(e), m);
  }

  /** The final dilation never clears a pixel the opening kept. */
  lemma RefineGrowsOpening(m: Mask)
    ensures Below(Open(m), Refine(m))
  {
    DilateGrows(Open(m));
  }

  /** The refined mask lies within one dilation of the raw mask. */
  lemma RefineWithinDilatedRaw(m: Mask)
    ensures Below(Refine(m), Dilate(m))
  {
    OpenShrinks(m);
    DilateMonotone(Open(m), m);
  }

  /** Cleanup is monotone: a larger raw mask never gives a smaller refined mask. */
  lemma RefineMonotone(a: Mask, b: Mask)
    requires Below(a, b)
    ensures Below(Refine(a), Refine(b))
  {
    ErodeMonotone(a, b);
    ErodeMonotone(Erode(a), Erode(b));
    DilateMonotone(Erode(Erode(a)), Erode(Erode(b)));
    DilateMonotone(Dilate(Erode(Erode(a))), Dilate(Erode(Erode(b))));
    DilateMonotone(Open(a), Open(b));
  }

  /** On a binary mask every neighbour value, the border included, is 0 or 255. */
  lemma NeighbourhoodBinary(m: Mask, i: int, j: int, border: byte)
    requires Binary(m) && (border == 0 || border == 255)
    ensures forall k :: 0 <= k < 9 ==> Neighbourhood(m, i, j, border)[k] in {0, 255}
  {
    var s := Neighbourhood(m, i, j, border);
    forall k | 0 <= k < 9
      ensures s[k] in {0, 255}
    {
      var qi, qj := i + Offsets[k].0, j + Offsets[k].1;
      assert s[k] == At(m, qi, qj, border);
    }
  }

  lemma ErodeBinary(m: Mask)
    requires Binary(m)
    ensures Binary(Erode(m))
  {
    var e := Erode(m);
    forall i, j | 0 <= i < |e| && 0 <= j < |e[i]|
      ensures e[i][j] == 0 || e[i][j] == 255
    {
      var s := Neighbourhood(m, i, j, 255);
      NeighbourhoodBinary(m, i, j, 255);
      var k :| 0 <= k < 9 && s[k] == MinOf(s);
      assert e[i][j] == s[k];
    }
  }

  lemma DilateBinary(m: Mask)
    requires Binary(m)
    ensures Binary(Dilate(m))
  {
    var d := Dilate(m);
    forall i, j | 0 <= i < |d| && 0 <= j < |d[i]|
      ensures d[i][j] == 0 || d[i][j] == 255
    {
      var s := Neighbourhood(m, i, j, 0);
      NeighbourhoodBinary(m, i, j, 0);
      var k :| 0 <= k < 9 && s[k] == MaxOf(s);
      assert d[i][j] == s[k];
    }
  }

  /** Cleanup keeps a binary mask binary. */
  lemma RefineBinary(m: Mask)
    requires Binary(m)
    ensures Binary(Refine(m))
  {
    ErodeBinary(m);
    ErodeBinary(Erode(m));
    DilateBinary(Erode(Erode(m)));
    DilateBinary(Dilate(Erode(Erode(m))));
    DilateBinary(Open(m));
  }

  /** With nothing set, no neighbour value is above 0, the border included. */
  lemma DilateAtEmpty(m: Mask, i: int, j: int)
    requires AllZero(m)
    ensures DilateAt(m, i, j) == 0
  {
    var s := Neighbourhood(m, i, j, 0);
    forall k | 0 <= k < 9
      ensures s[k] <= 0
    {
      assert s[k] == At(m, i + Offsets[k].0, j + Offsets[k].1, 0);
    }
    MaxOfAtMost(s, 0);
  }

  lemma DilateEmpty(m: Mask)
    requires AllZero(m)
    ensures AllZero(Dilate(m))
  {
    var d := Dilate(m);
    forall i, j | 0 <= i < |d| && 0 <= j < |d[i]|
      ensures d[i][j] == 0
    {
      DilateAtEmpty(m, i, j);
    }
  }

  /** A raw mask with no pixel set stays empty after cleanup. */
  lemma RefineEmpty(m: Mask)
    requires AllZero(m)
    ensures AllZero(Refine(m))
  {
    var r, d := Refine(m), Dilate(m);
    DilateEmpty(m);
    RefineWithinDilatedRaw(m);
    forall i, j | 0 <= i < |r| && 0 <= j < |r[i]|
      ensures r[i][j] == 0
    {
      assert r[i][j] <= d[i][j];
    }
  }

  /** Every position within distance r of (i, j), the border included, reads 255. */
  predicate Solid(m: Mask, i: int, j: int, r: nat) {
    forall p, q :: i - r <= p <= i + r && j - r <= q <= j + r ==> At(m, p, q, 255) == 255
  }

  /** Erosion at (i, j) keeps a pixel whose whole 3x3 neighbourhood is set. */
  lemma ErodeAtSolid(m: Mask, i: int, j: int)
    requires Solid(m, i, j, 1)
    ensures ErodeAt(m, i, j) == 255
  {
    var s := Neighbourhood(m, i, j, 255);
    forall k | 0 <= k < 9
      ensures s[k] == 255
    {
      assert s[k] == At(m, i + Offsets[k].0, j + Offsets[k].1, 255);
    }
    var w :| 0 <= w < 9 && s[w] == MinOf(s);
  }

  /** One erosion shrinks a solid 5x5 block around (i, j) to a solid 3x3 block. */
  lemma ErodeSolid(m: Mask, i: int, j: int)
    requires Solid(m, i, j, 2)
    ensures Solid(Erode(m), i, j, 1)
  {
    var e := Erode(m);
    forall p, q | i - 1 <= p <= i + 1 && j - 1 <= q <= j + 1
      ensures At(e, p, q, 255) == 255
    {
      if 0 <= p < |e| && 0 <= q < |e[p]| {
        ErodeAtSolid(m, p, q);
        assert e[p][q] == ErodeAt(m, p, q);
      }
    }
  }

  /**
   * Cleanup keeps a pixel whose whole 5x5 block is set (or lies outside the
   * image): the two erosions keep it, and dilation never clears a pixel.
   */
  lemma SolidBlockSurvives(m: Mask, i: int, j: int)
    requires 0 <= i < |m| && 0 <= j < |m[i]|
    requires Solid(m, i, j, 2)
    ensures Open(m)[i][j] == 255 && Refine(m)[i][j] == 255
  {
    var e := Erode(m);
    var ee := Erode(e);
    ErodeSolid(m, i, j);
    ErodeAtSolid(e, i, j);
    assert ee[i][j] == 255;
    DilateGrows(ee);
    DilateGrows(Dilate(ee));
    RefineGrowsOpening(m);
  }
}
