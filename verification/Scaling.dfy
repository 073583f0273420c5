/** What the area-averaging downscale of a BGRA frame computes, and what that means
    (host-agent/internal/vpx/convert.c). */
module Scaling {
  import opened Prelude
  import opened Weighted
  import opened Axis

  // A frame is its rows, top first, each of four bytes (B, G, R, A) a pixel.
  type Frame = seq<seq<byte>>

  ghost predicate IsFrame(f: Frame, w: int, h: int)
  {
    w > 0 && h > 0 && |f| == h && forall r :: 0 <= r < h ==> |f[r]| == 4 * w
  }

  // The taps of one output pixel along one axis: where they begin, and their weights.
  datatype Taps = Taps(first: int, w: seq<int>) {
    ghost predicate Inside(n: int) {
      w != [] && 0 <= first && first + |w| <= n
    }

    ghost predicate Fair() {
      && Sum(w) == 256
      && forall k :: 0 <= k < |w| ==> 0 <= w[k] <= 256
    }
  }

  function TapsOf(src: int, dst: int, i: int): Taps
    requires src > 0 && dst > 0 && Count(src, dst, i) >= 1
  {
    Taps(First(src, dst, i), Weights(src, dst, i))
  }

  // Source byte i of each of the rows the taps cover.
  function ColumnAt(f: Frame, y: Taps, w: int, i: int): (col: seq<int>)
    requires y.first >= 0 && y.first + |y.w| <= |f| && 0 <= i < 4 * w
    requires forall r :: 0 <= r < |f| ==> |f[r]| == 4 * w
    ensures |col| == |y.w|
  {
    seq(|y.w|, k requires 0 <= k < |y.w| => f[y.first + k][i])
  }

  // The vertical pass: byte i of the accumulated row, in 16 bits.
  function Vertical(f: Frame, y: Taps, w: int, i: int): int
    requires y.first >= 0 && y.first + |y.w| <= |f| && 0 <= i < 4 * w
    requires forall r :: 0 <= r < |f| ==> |f[r]| == 4 * w
  {
    WrapDot(ColumnAt(f, y, w, i), y.w, |y.w|, 0x1_0000)
  }

  function AccRow(f: Frame, y: Taps, w: int): (acc: seq<int>)
    requires w > 0 && y.first >= 0 && y.first + |y.w| <= |f|
    requires forall r :: 0 <= r < |f| ==> |f[r]| == 4 * w
    ensures |acc| == 4 * w
  {
    seq(4 * w, i requires 0 <= i < 4 * w => Vertical(f, y, w, i))
  }

  // Channel c of each of the accumulated pixels the taps cover.
  function ChannelAt(acc: seq<int>, x: Taps, c: int): (vals: seq<int>)
    requires x.first >= 0 && 4 * (x.first + |x.w|) <= |acc| && 0 <= c < 4
    ensures |vals| == |x.w|
  {
    seq(|x.w|, k requires 0 <= k < |x.w| => acc[4 * (x.first + k) + c])
  }

  // The horizontal pass: one channel of one output pixel, in 32 bits and rounded.
  function Horizontal(acc: seq<int>, x: Taps, c: int): byte
    requires x.first >= 0 && 4 * (x.first + |x.w|) <= |acc| && 0 <= c < 4
  {
    if c == 3 then 255
    else U32(WrapDot(ChannelAt(acc, x, c), x.w, |x.w|, 0x1_0000_0000) + 32768) / 0x1_0000 % 256
  }

  function Scaled(f: Frame, y: Taps, x: Taps, w: int, h: int, c: int): byte
    requires IsFrame(f, w, h) && y.Inside(h) && x.Inside(w) && 0 <= c < 4
  {
    Horizontal(AccRow(f, y, w), x, c)
  }

  // The patch of channel c an output pixel covers.
  function PatchOf(f: Frame, y: Taps, x: Taps, w: int, h: int, c: int): (p: seq<seq<int>>)
    requires IsFrame(f, w, h) && y.Inside(h) && x.Inside(w) && 0 <= c < 4
    ensures IsPatch(p, y.w, x.w)
  {
    seq(|y.w|, ky requires 0 <= ky < |y.w| =>
      seq(|x.w|, kx requires 0 <= kx < |x.w| => f[y.first + ky][4 * (x.first + kx) + c]))
  }

  // The taps of every axis lie inside the source, ...
  lemma TapsOfInside(src: int, dst: int, i: int)
    requires src > 0 && dst > 0 && 0 <= i < dst
    ensures Count(src, dst, i) >= 1 && TapsOf(src, dst, i).Inside(src)
  {
    TapsInsideSource(src, dst, i);
  }

  // ... and are fair exactly if, rounded, they leave enough to the largest of them.
  lemma TapsOfFair(src: int, dst: int, i: int)
    requires src > 0 && dst > 0 && 0 <= i < dst
    ensures Count(src, dst, i) >= 1
    ensures TapsOf(src, dst, i).Fair() <==> LeavesEnough(src, dst, i)
  {
    WellWeighedIff(src, dst, i);
  }

  // No byte of an accumulated row wraps: it is the plain weighted sum of the
  // column of the patch above it, at most 255*256.
  lemma AccumulatedFits(f: Frame, y: Taps, x: Taps, w: int, h: int, c: int, kx: nat)
    requires IsFrame(f, w, h) && y.Inside(h) && x.Inside(w) && y.Fair() && 0 <= c < 4 && kx < |x.w|
    ensures AccRow(f, y, w)[4 * (x.first + kx) + c]
            == Dot(Column(PatchOf(f, y, x, w, h, c), y.w, x.w, kx), y.w, |y.w|)
    ensures 0 <= AccRow(f, y, w)[4 * (x.first + kx) + c] <= 255 * 256 < 0x1_0000
  {
    var i := 4 * (x.first + kx) + c;
    var col := ColumnAt(f, y, w, i);
    assert col == Column(PatchOf(f, y, x, w, h, c), y.w, x.w, kx);
    WordHoldsDot(col, y.w, |y.w|, 255, 0x1_0000);
  }

  lemma RoundedFits(total: int)
    requires 0 <= total <= 255 * 256 * 256
    ensures U32(total + 32768) / 0x1_0000 % 256 == (total + 32768) / 0x1_0000
  {
  }

  // Weighing the accumulated channels is the double sum, and fits 32 bits.
  lemma ChannelsFit(f: Frame, y: Taps, x: Taps, w: int, h: int, c: int)
    requires IsFrame(f, w, h) && y.Inside(h) && x.Inside(w) && y.Fair() && x.Fair() && 0 <= c < 4
    ensures var total := DoubleSum(PatchOf(f, y, x, w, h, c), y.w, x.w, |y.w|, |x.w|);
            && WrapDot(ChannelAt(AccRow(f, y, w), x, c), x.w, |x.w|, 0x1_0000_0000) == total
            && 0 <= total <= 255 * 256 * 256
  {
    var vals := ChannelAt(AccRow(f, y, w), x, c);
    forall k | 0 <= k < |x.w|
      ensures vals[k] == Dot(Column(PatchOf(f, y, x, w, h, c), y.w, x.w, k), y.w, |y.w|)
      ensures 0 <= vals[k] <= 255 * 256
    {
      AccumulatedFits(f, y, x, w, h, c, k);
    }
    ColumnsThenRow(PatchOf(f, y, x, w, h, c), y.w, x.w, vals, |x.w|);
    WordHoldsDot(vals, x.w, |x.w|, 255 * 256, 0x1_0000_0000);
  }

  // The two-pass scaler equals the one-shot double sum, rounded to nearest, with
  // no 16- or 32-bit intermediate ever wrapping.
  lemma TwoPassesAreOneSum(f: Frame, y: Taps, x: Taps, w: int, h: int, c: int)
    requires IsFrame(f, w, h) && y.Inside(h) && x.Inside(w) && y.Fair() && x.Fair() && 0 <= c < 3
    ensures Scaled(f, y, x, w, h, c)
            == (DoubleSum(PatchOf(f, y, x, w, h, c), y.w, x.w, |y.w|, |x.w|) + 32768) / 0x1_0000
  {
    ChannelsFit(f, y, x, w, h, c);
    RoundedFits(DoubleSum(PatchOf(f, y, x, w, h, c), y.w, x.w, |y.w|, |x.w|));
  }

  // Every source value of channel c under the output pixel is between lo and hi.
  ghost predicate PatchBetween(p: seq<seq<int>>, lo: int, hi: int)
  {
    forall ky :: 0 <= ky < |p| ==> Within(p[ky], lo, hi)
  }

  // An output channel lies between the least and the greatest source value it
  // covers, so an image of one colour keeps it.
  lemma ScaledIsAnAverage(f: Frame, y: Taps, x: Taps, w: int, h: int, c: int, lo: int, hi: int)
    requires IsFrame(f, w, h) && y.Inside(h) && x.Inside(w) && y.Fair() && x.Fair() && 0 <= c < 3
    requires PatchBetween(PatchOf(f, y, x, w, h, c), lo, hi)
    ensures lo <= Scaled(f, y, x, w, h, c) <= hi
  {
    var p := PatchOf(f, y, x, w, h, c);
    var cols := seq(|x.w|, k requires 0 <= k < |x.w| => Dot(Column(p, y.w, x.w, k), y.w, |y.w|));
    assert y.w[..|y.w|] == y.w && x.w[..|x.w|] == x.w;
    forall k | 0 <= k < |x.w|
      ensures lo * 256 <= cols[k] <= hi * 256
    {
      var col := Column(p, y.w, x.w, k);
      forall j | 0 <= j < |col|
        ensures lo <= col[j] <= hi
      {
        assert Within(p[j], lo, hi);
      }
      DotBetween(col, y.w, |y.w|, lo, hi);
    }
    DotBetween(cols, x.w, |x.w|, lo * 256, hi * 256);
    ColumnsThenRow(p, y.w, x.w, cols, |x.w|);
    TwoPassesAreOneSum(f, y, x, w, h, c);
  }

  // The scaled frame: of each row, its pixels from the left; of each pixel, its
  // four channels.

  function ScaledPixel(acc: seq<int>, w: int, dstW: int, ox: int): (px: seq<byte>)
    requires w > 0 && |acc| == 4 * w && 0 <= ox < dstW
  {
    TapsOfInside(w, dstW, ox);
    var x := TapsOf(w, dstW, ox);
    [Horizontal(acc, x, 0), Horizontal(acc, x, 1), Horizontal(acc, x, 2), Horizontal(acc, x, 3)]
  }

  function ScaledPixels(acc: seq<int>, w: int, dstW: int): (pixels: seq<seq<byte>>)
    requires w > 0 && |acc| == 4 * w && dstW >= 0
    ensures |pixels| == dstW && forall ox :: 0 <= ox < dstW ==> |pixels[ox]| == 4
  {
    seq(dstW, ox requires 0 <= ox < dstW => ScaledPixel(acc, w, dstW, ox))
  }

  function ScaledRow(f: Frame, w: int, h: int, dstW: int, dstH: int, oy: int): (row: seq<byte>)
    requires IsFrame(f, w, h) && dstW > 0 && 0 <= oy < dstH
    ensures |row| == 4 * dstW
  {
    TapsOfInside(h, dstH, oy);
    var pixels := ScaledPixels(AccRow(f, TapsOf(h, dstH, oy), w), w, dstW);
    PackedLength(pixels, 4, dstW);
    Packed(pixels, dstW)
  }

  function ScaledFrame(f: Frame, w: int, h: int, dstW: int, dstH: int): (g: Frame)
    requires IsFrame(f, w, h) && dstW > 0 && dstH > 0
    ensures IsFrame(g, dstW, dstH)
  {
    seq(dstH, oy requires 0 <= oy < dstH => ScaledRow(f, w, h, dstW, dstH, oy))
  }

  lemma PixelOfRow(acc: seq<int>, w: int, dstW: int, ox: int, c: int)
    requires w > 0 && |acc| == 4 * w && 0 <= ox < dstW && 0 <= c < 4
    ensures |Packed(ScaledPixels(acc, w, dstW), dstW)| == 4 * dstW
    ensures Packed(ScaledPixels(acc, w, dstW), dstW)[4 * ox + c] == ScaledPixel(acc, w, dstW, ox)[c]
  {
    var pixels := ScaledPixels(acc, w, dstW);
    PackedLength(pixels, 4, dstW);
    PackedPiece(pixels, 4, dstW, ox);
    assert Packed(pixels, dstW)[4 * ox + c] == Packed(pixels, dstW)[ox * 4..ox * 4 + 4][c];
  }

  lemma PixelOfFrame(f: Frame, w: int, h: int, dstW: int, dstH: int, ox: int, oy: int, c: int)
    requires IsFrame(f, w, h) && 0 <= ox < dstW && 0 <= oy < dstH && 0 <= c < 4
    ensures Count(h, dstH, oy) >= 1 && TapsOf(h, dstH, oy).Inside(h)
    ensures ScaledFrame(f, w, h, dstW, dstH)[oy][4 * ox + c]
         == ScaledPixel(AccRow(f, TapsOf(h, dstH, oy), w), w, dstW, ox)[c]
  {
    TapsOfInside(h, dstH, oy);
    PixelOfRow(AccRow(f, TapsOf(h, dstH, oy), w), w, dstW, ox, c);
  }

  lemma FairIsAveraged(f: Frame, w: int, h: int, dstW: int, dstH: int, ox: int, oy: int, c: int, y: Taps, x: Taps)
    requires IsFrame(f, w, h) && 0 <= ox < dstW && 0 <= oy < dstH && 0 <= c < 3
    requires Count(w, dstW, ox) >= 1 && x == TapsOf(w, dstW, ox) && x.Inside(w) && x.Fair()
    requires Count(h, dstH, oy) >= 1 && y == TapsOf(h, dstH, oy) && y.Inside(h) && y.Fair()
    ensures var px := ScaledFrame(f, w, h, dstW, dstH)[oy];
            && px[4 * ox + c] == (DoubleSum(PatchOf(f, y, x, w, h, c), y.w, x.w, |y.w|, |x.w|) + 32768) / 0x1_0000
            && px[4 * ox + 3] == 255
  {
    PixelOfFrame(f, w, h, dstW, dstH, ox, oy, c);
    PixelOfFrame(f, w, h, dstW, dstH, ox, oy, 3);
    TwoPassesAreOneSum(f, y, x, w, h, c);
  }

  // Channel c of pixel (ox, oy) of the scaled frame is the weighted average of the
  // patch of the source that pixel covers, and the pixel is opaque. (Taps leave enough
  // at every ratio up to 24, by RatioOf24LeavesEnough.)
  lemma ScaledFrameIsAveraged(f: Frame, w: int, h: int, dstW: int, dstH: int, ox: int, oy: int, c: int)
    requires IsFrame(f, w, h) && 0 <= ox < dstW && 0 <= oy < dstH && 0 <= c < 3
    requires LeavesEnough(w, dstW, ox) && LeavesEnough(h, dstH, oy)
    ensures Count(w, dstW, ox) >= 1 && Count(h, dstH, oy) >= 1
    ensures var y, x := TapsOf(h, dstH, oy), TapsOf(w, dstW, ox);
            && y.Inside(h) && x.Inside(w)
            && ScaledFrame(f, w, h, dstW, dstH)[oy][4 * ox + c]
               == (DoubleSum(PatchOf(f, y, x, w, h, c), y.w, x.w, |y.w|, |x.w|) + 32768) / 0x1_0000
    ensures ScaledFrame(f, w, h, dstW, dstH)[oy][4 * ox + 3] == 255
  {
    TapsOfInside(h, dstH, oy);
    TapsOfInside(w, dstW, ox);
    TapsOfFair(h, dstH, oy);
    TapsOfFair(w, dstW, ox);
    FairIsAveraged(f, w, h, dstW, dstH, ox, oy, c, TapsOf(h, dstH, oy), TapsOf(w, dstW, ox));
  }
}
