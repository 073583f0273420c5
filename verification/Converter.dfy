/** The encoded size of a desktop, and its conversion into an I420 image
    (host-agent/internal/vpx/settings.go, host-agent/internal/vpx/encoder_cgo.go). */
module Conversion {
  import opened Prelude
  import opened Scaling
  import opened FdScaler
  import opened I420

  // Go's x &^ 1, for a non-negative x.
  function Even(x: nat): nat { x - x % 2 }

  function OutputSize(srcW: int, srcH: int, maxWidth: int): (int, int)
  {
    if srcW <= 0 || srcH <= 0 then (0, 0)
    else if maxWidth <= 0 || srcW <= maxWidth then (Even(srcW), Even(srcH))
    else
      var w := Even(maxWidth);
      var den := srcW * 2;
      (w, Max((w * srcH + den / 2) / den * 2, 2))
  }

  // Both dimensions are even and non-negative, the width fits the desktop and the
  // cap, and the height fits the desktop unless a desktop one row high is raised to 2.
  lemma OutputSizeFits(srcW: int, srcH: int, maxWidth: int)
    requires srcW > 0 && srcH > 0
    ensures var (w, h) := OutputSize(srcW, srcH, maxWidth);
            && w % 2 == 0 && h % 2 == 0 && 0 <= w <= srcW && 0 <= h
            && (maxWidth > 0 ==> w <= maxWidth)
            && (h <= srcH || (h == 2 && srcH == 1))
  {
    if maxWidth > 0 && srcW > maxWidth {
      HeightInside(srcW, srcH, Even(maxWidth));
    }
  }

  lemma HeightInside(srcW: int, srcH: int, w: int)
    requires srcW > 0 && srcH > 0 && 0 <= w < srcW
    ensures 0 <= (w * srcH + srcW) / (srcW * 2) * 2 <= srcH
  {
    HeightRounds(srcW, srcH, w);
    var q := (w * srcH + srcW) / (srcW * 2);
    MulMonotone(w, srcW - 1, srcH);
    Distribute(srcH, 1, srcW);
    Distribute(srcW, -1, srcH);
    if 2 * q > srcH {
      MulMonotone(srcH + 1, 2 * q, srcW);
    }
  }

  // The width is the largest even one within the desktop and the cap; a desktop that
  // needs no cap keeps its size but for an odd last row and column.
  lemma WidthIsLargest(srcW: int, srcH: int, maxWidth: int, w: int)
    requires srcW > 0 && srcH > 0 && w % 2 == 0 && 0 <= w <= srcW && (maxWidth > 0 ==> w <= maxWidth)
    ensures w <= OutputSize(srcW, srcH, maxWidth).0
    ensures maxWidth <= 0 || srcW <= maxWidth ==>
              var size := OutputSize(srcW, srcH, maxWidth); 0 <= srcW - size.0 <= 1 && 0 <= srcH - size.1 <= 1
  {
  }

  // Rounding to the nearest even height.
  lemma HeightRounds(srcW: int, srcH: int, w: int)
    requires srcW > 0 && srcH > 0 && 0 <= w
    ensures var q := (w * srcH + srcW) / (srcW * 2);
            0 <= q && w * srcH - srcW < 2 * q * srcW <= w * srcH + srcW
  {
    MulMonotone(0, w, srcH);
    var a, d := w * srcH + srcW, srcW * 2;
    assert a == d * (a / d) + a % d;
    assert d * (a / d) == 2 * (a / d) * srcW;
  }

  // A downscaled size keeps the aspect to within one row of the source either way,
  // unless its height came out as zero and was raised to 2.
  lemma AspectKept(srcW: int, srcH: int, maxWidth: int)
    requires srcW > 0 && srcH > 0 && 0 < maxWidth < srcW
    ensures var (w, h) := OutputSize(srcW, srcH, maxWidth);
            (-srcW <= h * srcW - w * srcH <= srcW) || (h == 2 && w * srcH < srcW)
  {
    var w := Even(maxWidth);
    HeightRounds(srcW, srcH, w);
    var q := (w * srcH + srcW) / (srcW * 2);
    if q >= 1 {
      assert OutputSize(srcW, srcH, maxWidth) == (w, q * 2);
    }
  }

  // A desktop no wider than 16 times its encoded width is no higher than 24 times
  // its encoded height: along both axes the scaler's weights are then fair.
  lemma BothRatiosFair(srcW: int, srcH: int, maxWidth: int)
    requires srcW > 0 && srcH > 0
    requires OutputSize(srcW, srcH, maxWidth).0 > 0 && OutputSize(srcW, srcH, maxWidth).1 > 0
    requires srcW <= 16 * OutputSize(srcW, srcH, maxWidth).0
    ensures srcW <= 24 * OutputSize(srcW, srcH, maxWidth).0
    ensures srcH <= 24 * OutputSize(srcW, srcH, maxWidth).1
  {
    if maxWidth > 0 && srcW > maxWidth {
      AspectKept(srcW, srcH, maxWidth);
      var (w, h) := OutputSize(srcW, srcH, maxWidth);
      RatioOfHeights(srcW, srcH, w, h);
    }
  }

  lemma RatioOfHeights(srcW: int, srcH: int, w: int, h: int)
    requires srcW > 0 && srcH > 0 && w > 0 && h >= 2 && srcW <= 16 * w
    requires w * srcH - h * srcW <= srcW
    ensures srcH <= 24 * h
  {
    assert w * srcH <= (h + 1) * srcW;
    MulMonotone(srcW, 16 * w, h + 1);
    assert (16 * w) * (h + 1) == w * (16 * (h + 1));
    if srcH > 24 * h {
      MulMonotone(24 * h + 1, srcH, w);
      MulMonotone(16 * (h + 1), 24 * h, w);
      Distribute(24 * h, 1, w);
    }
  }

  // One frame in the layout the encoder takes, each plane as wide as the image.
  class Image {
    const w: int
    const h: int
    const y: array<byte>
    const u: array<byte>
    const v: array<byte>

    ghost predicate Valid() {
      && w > 0 && h > 0 && w % 2 == 0 && h % 2 == 0
      && y.Length == h * w && u.Length == h / 2 * (w / 2) && v.Length == h / 2 * (w / 2)
      && y != u && y != v && u != v
    }

    // NewImage allocates a quarter of the pixels for each chroma plane.
    constructor (w: int, h: int)
      requires w > 0 && h > 0 && w % 2 == 0 && h % 2 == 0
      ensures Valid() && this.w == w && this.h == h && fresh({y, u, v})
    {
      QuarterPlane(w, h);
      this.w, this.h := w, h;
      y, u, v := new byte[h * w](_ => 0), new byte[h * w / 4](_ => 0), new byte[h * w / 4](_ => 0);
    }

    // The planes hold the given frame, converted.
    ghost predicate Shows(f: Frame)
      requires Valid() && IsFrame(f, w, h)
      reads y, u, v
    {
      && y[..] == Packed(YLines(f, w, h), h)
      && u[..] == Packed(ULines(f, w, h), h / 2)
      && v[..] == Packed(VLines(f, w, h), h / 2)
    }
  }

  // A quarter of an even image's pixels is exactly its 2x2 blocks.
  lemma QuarterPlane(w: int, h: int)
    requires w > 0 && h > 0 && w % 2 == 0 && h % 2 == 0
    ensures h * w >= 0 && h * w / 4 == h / 2 * (w / 2)
  {
    var a, b := h / 2, w / 2;
    assert h * w == (2 * a) * (2 * b) == 4 * (a * b);
    MulMonotone(0, h, w);
  }

  // The left upper w x h pixels of a frame.
  function Cropped(f: Frame, w: int, h: int): (g: Frame)
    requires 0 < w && 0 < h <= |f| && forall r :: 0 <= r < |f| ==> |f[r]| >= 4 * w
    ensures IsFrame(g, w, h)
  {
    seq(h, r requires 0 <= r < h => f[r][..4 * w])
  }

  lemma CropInside(px: seq<byte>, stride: int, srcW: int, srcH: int, w: int, h: int)
    requires Holds(px, stride, srcW, srcH) && 0 < w <= srcW && 0 < h <= srcH
    ensures Holds(px, stride, w, h)
    ensures FrameIn(px, stride, w, h) == Cropped(FrameIn(px, stride, srcW, srcH), w, h)
  {
    MulMonotone(h - 1, srcH - 1, stride);
    var f, g := FrameIn(px, stride, srcW, srcH), FrameIn(px, stride, w, h);
    forall r | 0 <= r < h
      ensures g[r] == f[r][..4 * w]
    {
      RowInside(px, stride, srcW, srcH, r);
    }
  }

  // Whether a desktop is scaled rather than cropped.
  predicate Scales(srcW: int, srcH: int, w: int, h: int)
    requires srcW > 0 && srcH > 0
  {
    Even(srcW) != w || Even(srcH) != h
  }

  // A desktop is cropped exactly if that loses no more than its last row and column;
  // and only one that a cap narrows is scaled.
  lemma CroppingLosesLittle(srcW: int, srcH: int, maxWidth: int)
    requires srcW > 0 && srcH > 0
    ensures var (w, h) := OutputSize(srcW, srcH, maxWidth);
            && (!Scales(srcW, srcH, w, h) <==> 0 <= srcW - w <= 1 && 0 <= srcH - h <= 1)
            && (maxWidth <= 0 || srcW <= maxWidth ==> !Scales(srcW, srcH, w, h))
  {
    OutputSizeFits(srcW, srcH, maxWidth);
  }

  // The w x h frame that is encoded for a desktop.
  function Encoded(f: Frame, srcW: int, srcH: int, w: int, h: int): (g: Frame)
    requires IsFrame(f, srcW, srcH) && w > 0 && h > 0
    ensures IsFrame(g, w, h)
  {
    if Scales(srcW, srcH, w, h) then ScaledFrame(f, srcW, srcH, w, h) else Cropped(f, w, h)
  }

  class Converter {
    const srcW: int
    const srcH: int
    const w: int
    const h: int
    const scaler: FdScaler?
    const scaled: array<byte>

    ghost predicate Valid() {
      && srcW > 0 && srcH > 0 && w > 0 && h > 0 && w % 2 == 0 && h % 2 == 0
      && (scaler != null <==> Scales(srcW, srcH, w, h))
      && (scaler != null ==>
            && scaler.Valid() && scaler.srcW == srcW && scaler.srcH == srcH
            && scaler.dstW == w && scaler.dstH == h
            && scaled.Length == h * (4 * w))
    }

    constructor (srcW: int, srcH: int, maxWidth: int)
      requires OutputSize(srcW, srcH, maxWidth).0 > 0 && OutputSize(srcW, srcH, maxWidth).1 > 0
      ensures Valid() && this.srcW == srcW && this.srcH == srcH
      ensures (w, h) == OutputSize(srcW, srcH, maxWidth)
      ensures fresh(scaled) && (scaler != null ==> fresh(scaler) && fresh(scaler.acc))
    {
      OutputSizeFits(srcW, srcH, maxWidth);
      var (w, h) := OutputSize(srcW, srcH, maxWidth);
      this.srcW, this.srcH, this.w, this.h := srcW, srcH, w, h;
      if Scales(srcW, srcH, w, h) {
        MulMonotone(0, h, 4 * w);
        scaler := new FdScaler(srcW, srcH, w, h);
        scaled := new byte[h * (4 * w)](_ => 0);
      } else {
        scaler, scaled := null, new byte[0];
      }
    }

    // Converts one frame of the source's size: every read is inside the source's
    // memory or the scaler's output, every byte of the planes is written.
    method Convert(dst: Image, pixels: array<byte>, stride: int)
      requires Valid() && dst.Valid() && dst.w == w && dst.h == h
      requires Holds(pixels[..], stride, srcW, srcH)
      requires pixels != scaled && pixels !in {dst.y, dst.u, dst.v} && scaled !in {dst.y, dst.u, dst.v}
      modifies dst.y, dst.u, dst.v, scaled, if scaler != null then {scaler.acc} else {}
      ensures dst.Shows(Encoded(FrameIn(old(pixels[..]), stride, srcW, srcH), srcW, srcH, w, h))
    {
      ghost var f := FrameIn(pixels[..], stride, srcW, srcH);
      if scaler != null {
        scaler.Scale(pixels, stride, scaled);
        PackedHoldsFrame(ScaledFrame(f, srcW, srcH, w, h), w, h, scaled[..]);
        BgraToI420(scaled, 4 * w, w, h, dst.y, dst.u, dst.v);
      } else {
        CropInside(pixels[..], stride, srcW, srcH, w, h);
        BgraToI420(pixels, stride, w, h, dst.y, dst.u, dst.v);
      }
    }
  }

  // Whether there is anything to encode of a desktop.
  predicate Encodes(size: (int, int)) { size.0 > 0 && size.1 > 0 }

  // NewConverter; `memory` is whether a scaler can be allocated, if it takes one. There
  // is no converter exactly for a size there is nothing to encode of, and for one that
  // must be scaled when there is no memory for that.
  method NewConverter(srcW: int, srcH: int, maxWidth: int, memory: bool) returns (c: Converter?)
    ensures c == null <==>
              var size := OutputSize(srcW, srcH, maxWidth);
              !Encodes(size) || (srcW > 0 && srcH > 0 && Scales(srcW, srcH, size.0, size.1) && !memory)
    ensures c != null ==> c.Valid() && c.srcW == srcW && c.srcH == srcH
    ensures c != null ==> (c.w, c.h) == OutputSize(srcW, srcH, maxWidth)
  {
    var (w, h) := OutputSize(srcW, srcH, maxWidth);
    if w <= 0 || h <= 0 {
      return null;
    }
    OutputSizeFits(srcW, srcH, maxWidth);
    if Scales(srcW, srcH, w, h) && !memory {
      return null;
    }
    c := new Converter(srcW, srcH, maxWidth);
  }
}
