/** fd_scaler: the two passes over the source's memory, in place in the row
    accumulator and the output (host-agent/internal/vpx/convert.c). */
module FdScaler {
  import opened Prelude
  import opened Weighted
  import opened Axis
  import opened Scaling

  // Memory that holds h rows of w four-byte pixels, stride bytes from row to row;
  // the last row need not be padded out to the stride.
  ghost predicate Holds(px: seq<byte>, stride: int, w: int, h: int)
  {
    && w > 0 && h > 0 && stride >= 4 * w
    && |px| >= (h - 1) * stride + 4 * w
  }

  lemma RowInside(px: seq<byte>, stride: int, w: int, h: int, r: int)
    requires Holds(px, stride, w, h) && 0 <= r < h
    ensures 0 <= r * stride && r * stride + 4 * w <= |px|
  {
    MulMonotone(r, h - 1, stride);
    MulMonotone(0, r, stride);
  }

  function RowAt(px: seq<byte>, stride: int, w: int, h: int, r: int): (row: seq<byte>)
    requires Holds(px, stride, w, h) && 0 <= r < h
    ensures |row| == 4 * w
  {
    RowInside(px, stride, w, h, r);
    px[r * stride..r * stride + 4 * w]
  }

  function FrameIn(px: seq<byte>, stride: int, w: int, h: int): (f: Frame)
    requires Holds(px, stride, w, h)
    ensures IsFrame(f, w, h)
  {
    seq(h, r requires 0 <= r < h => RowAt(px, stride, w, h, r))
  }

  // Reading packed memory back gives the frame.
  lemma PackedHoldsFrame(f: Frame, w: int, h: int, px: seq<byte>)
    requires IsFrame(f, w, h) && px == Packed(f, h)
    ensures Holds(px, 4 * w, w, h) && FrameIn(px, 4 * w, w, h) == f
  {
    PackedLength(f, 4 * w, h);
    Distribute(h - 1, 1, 4 * w);
    forall r | 0 <= r < h
      ensures RowAt(px, 4 * w, w, h, r) == f[r]
    {
      PackedPiece(f, 4 * w, h, r);
    }
  }

  // acc[i] = row[i] * w0, for a whole row.
  method SetRow(acc: array<int>, src: array<byte>, base: int, n: int, w0: int, ghost row: seq<byte>)
    requires 0 <= n <= acc.Length && 0 <= base && base + n <= src.Length
    requires src[base..base + n] == row
    modifies acc
    ensures forall i :: 0 <= i < n ==> acc[i] == U16(row[i] * w0)
  {
    var i := 0;
    while i < n
      invariant 0 <= i <= n
      invariant forall j :: 0 <= j < i ==> acc[j] == U16(row[j] * w0)
    {
      assert src[base + i] == row[i];
      acc[i] := U16(src[base + i] * w0);
      i := i + 1;
    }
  }

  // acc[i] += row[i] * wk, for a whole row.
  method AddRow(acc: array<int>, src: array<byte>, base: int, n: int, wk: int, ghost row: seq<byte>)
    requires 0 <= n <= acc.Length && 0 <= base && base + n <= src.Length
    requires src[base..base + n] == row
    modifies acc
    ensures forall i :: 0 <= i < n ==> acc[i] == U16(old(acc[i]) + row[i] * wk)
  {
    var i := 0;
    while i < n
      invariant 0 <= i <= n
      invariant forall j :: 0 <= j < i ==> acc[j] == U16(old(acc[j]) + row[j] * wk)
      invariant forall j :: i <= j < acc.Length ==> acc[j] == old(acc[j])
    {
      assert src[base + i] == row[i];
      acc[i] := U16(acc[i] + src[base + i] * wk);
      i := i + 1;
    }
  }

  // The weight table holds the taps of one output pixel at base, zeros after them.
  ghost predicate TapsAt(weight: seq<int>, base: int, taps: int, t: Taps)
  {
    && 0 <= base <= base + taps <= |weight| && 1 <= |t.w| <= taps
    && weight[base..base + taps] == t.w + Zeros(taps - |t.w|)
  }

  lemma TapAt(weight: seq<int>, base: int, taps: int, t: Taps, k: int)
    requires TapsAt(weight, base, taps, t) && 0 <= k < taps
    ensures weight[base + k] == if k < |t.w| then t.w[k] else 0
  {
    assert weight[base + k] == weight[base..base + taps][k];
  }

  // Every byte of the accumulated row after the first k taps.
  ghost predicate Accumulated(acc: seq<int>, f: Frame, y: Taps, w: int, k: nat)
    requires w > 0 && y.first >= 0 && y.first + |y.w| <= |f| && k <= |y.w|
    requires forall r :: 0 <= r < |f| ==> |f[r]| == 4 * w
  {
    |acc| >= 4 * w
    && forall i :: 0 <= i < 4 * w ==> acc[i] == WrapDot(ColumnAt(f, y, w, i), y.w, k, 0x1_0000)
  }

  // The vertical pass of one output row. A tap of weight 0 reads no source row.
  method VerticalPass(acc: array<int>, src: array<byte>, stride: int, w: int, h: int,
                      weight: seq<int>, base: int, taps: int, ghost y: Taps, top: int)
    requires Holds(src[..], stride, w, h) && acc.Length >= 4 * w
    requires TapsAt(weight, base, taps, y) && y.Inside(h) && top == y.first
    modifies acc
    ensures forall i :: 0 <= i < 4 * w ==> acc[i] == AccRow(FrameIn(src[..], stride, w, h), y, w)[i]
  {
    ghost var mem := src[..];
    ghost var f := FrameIn(mem, stride, w, h);
    RowInside(mem, stride, w, h, top);
    TapAt(weight, base, taps, y, 0);
    SetRow(acc, src, top * stride, 4 * w, weight[base], f[top]);
    var k := 1;
    while k < taps
      invariant 1 <= k <= taps && src[..] == mem
      invariant Accumulated(acc[..], f, y, w, Min(k, |y.w|))
    {
      TapAt(weight, base, taps, y, k);
      var wk := weight[base + k];
      if wk != 0 {
        AddTap(acc, src, stride, w, h, y, top, k, wk, mem, f);
      } else if k < |y.w| {
        ZeroTaps(acc[..], f, y, w, k);
      }
      k := k + 1;
    }
  }

  method AddTap(acc: array<int>, src: array<byte>, stride: int, w: int, h: int, ghost y: Taps, top: int, k: nat,
                wk: int, ghost mem: seq<byte>, ghost f: Frame)
    requires src[..] == mem && Holds(mem, stride, w, h) && f == FrameIn(mem, stride, w, h)
    requires y.Inside(h) && top == y.first && k < |y.w| && wk == y.w[k]
    requires Accumulated(acc[..], f, y, w, k)
    modifies acc
    ensures Accumulated(acc[..], f, y, w, k + 1)
  {
    RowInside(mem, stride, w, h, top + k);
    AddRow(acc, src, (top + k) * stride, 4 * w, wk, f[top + k]);
  }

  lemma ZeroTaps(acc: seq<int>, f: Frame, y: Taps, w: int, k: nat)
    requires w > 0 && y.first >= 0 && y.first + |y.w| <= |f| && 0 < k < |y.w| && y.w[k] == 0
    requires forall r :: 0 <= r < |f| ==> |f[r]| == 4 * w
    requires Accumulated(acc, f, y, w, k)
    ensures Accumulated(acc, f, y, w, k + 1)
  {
    forall i | 0 <= i < 4 * w
      ensures acc[i] == WrapDot(ColumnAt(f, y, w, i), y.w, k + 1, 0x1_0000)
    {
      ZeroTap(ColumnAt(f, y, w, i), y.w, k, 0x1_0000);
    }
  }

  lemma ZeroTap(a: seq<int>, w: seq<int>, k: nat, m: int)
    requires 0 < k < |a| == |w| && m > 0 && w[k] == 0
    ensures WrapDot(a, w, k + 1, m) == WrapDot(a, w, k, m)
  {
  }

  // One more place of the weight table: the pixel's own tap k, or, after those, a
  // weight of 0 whatever padding is read with it.
  lemma WordStep(vals: seq<int>, w: seq<int>, k: nat, s: int, a: int, wk: int)
    requires |vals| == |w| && s == WrapDot(vals, w, Min(k, |w|), 0x1_0000_0000)
    requires if k < |w| then a == vals[k] && wk == w[k] else wk == 0 && w != []
    ensures U32(s + a * wk) == WrapDot(vals, w, Min(k + 1, |w|), 0x1_0000_0000)
  {
  }

  // The inner loop of the horizontal pass: the three sums of one output pixel.
  method PixelSums(acc: array<int>, first: int, weight: seq<int>, base: int, taps: int, ghost x: Taps,
                   ghost row: seq<int>)
    returns (b: int, g: int, r: int)
    requires TapsAt(weight, base, taps, x) && first == x.first >= 0
    requires 4 * (first + |x.w|) <= |row| && 4 * (first + taps) <= acc.Length
    requires |row| <= acc.Length && acc[..|row|] == row
    ensures b == WrapDot(ChannelAt(row, x, 0), x.w, |x.w|, 0x1_0000_0000)
    ensures g == WrapDot(ChannelAt(row, x, 1), x.w, |x.w|, 0x1_0000_0000)
    ensures r == WrapDot(ChannelAt(row, x, 2), x.w, |x.w|, 0x1_0000_0000)
  {
    b, g, r := 0, 0, 0;
    ghost var bs, gs, rs := ChannelAt(row, x, 0), ChannelAt(row, x, 1), ChannelAt(row, x, 2);
    var k := 0;
    while k < taps
      invariant 0 <= k <= taps
      invariant b == WrapDot(bs, x.w, Min(k, |x.w|), 0x1_0000_0000)
      invariant g == WrapDot(gs, x.w, Min(k, |x.w|), 0x1_0000_0000)
      invariant r == WrapDot(rs, x.w, Min(k, |x.w|), 0x1_0000_0000)
    {
      TapAt(weight, base, taps, x, k);
      var wk, a := weight[base + k], 4 * (first + k);
      if k < |x.w| {
        assert acc[..|row|][a] == row[a] && acc[..|row|][a + 1] == row[a + 1] && acc[..|row|][a + 2] == row[a + 2];
      }
      WordStep(bs, x.w, k, b, acc[a], wk);
      WordStep(gs, x.w, k, g, acc[a + 1], wk);
      WordStep(rs, x.w, k, r, acc[a + 2], wk);
      b := U32(b + acc[a] * wk);
      g := U32(g + acc[a + 1] * wk);
      r := U32(r + acc[a + 2] * wk);
      k := k + 1;
    }
  }

  // What a valid axis table holds for output pixel i.
  lemma TableHasTaps(src: int, dst: int, taps: int, first: seq<int>, weight: seq<int>, i: int)
    requires IsAxis(src, dst, taps, first, weight) && 0 <= i < dst
    ensures Count(src, dst, i) >= 1 && first[i] == TapsOf(src, dst, i).first
    ensures TapsAt(weight, i * taps, taps, TapsOf(src, dst, i))
  {
    assert HasRow(weight, taps, i, Row(src, dst, i, taps));
  }

  ghost predicate ArePixels(pixels: seq<seq<byte>>, row: seq<int>, srcW: int, dstW: int)
  {
    && srcW > 0 && |row| == 4 * srcW && |pixels| == dstW
    && (forall ox :: 0 <= ox < dstW ==> |pixels[ox]| == 4)
    && forall ox {:trigger ScaledPixel(row, srcW, dstW, ox)} ::
         0 <= ox < dstW ==> pixels[ox] == ScaledPixel(row, srcW, dstW, ox)
  }

  // The horizontal pass of one output row, whose accumulated row is in acc.
  method HorizontalPass(acc: array<int>, dst: array<byte>, at: int, first: seq<int>, weight: seq<int>, taps: int,
                        srcW: int, dstW: int, ghost row: seq<int>, ghost pixels: seq<seq<byte>>)
    requires IsAxis(srcW, dstW, taps, first, weight)
    requires |row| == 4 * srcW && acc.Length == 4 * (srcW + taps) && acc[..|row|] == row
    requires 0 <= at <= at + 4 * dstW <= dst.Length
    requires ArePixels(pixels, row, srcW, dstW)
    modifies dst
    ensures dst[..at + 4 * dstW] == old(dst[..at]) + Packed(pixels, dstW)
  {
    ghost var done := dst[..at];
    var ox, to := 0, at;
    while ox < dstW
      invariant 0 <= ox <= dstW && to == at + 4 * ox
      invariant dst[..to] == done
      invariant done == old(dst[..at]) + Packed(pixels, ox)
    {
      OutputPixel(acc, dst, to, first, weight, taps, srcW, dstW, ox, row, pixels);
      done := done + pixels[ox];
      ox, to := ox + 1, to + 4;
    }
  }

  method OutputPixel(acc: array<int>, dst: array<byte>, at: int, first: seq<int>, weight: seq<int>, taps: int,
                     srcW: int, dstW: int, ox: int, ghost row: seq<int>, ghost pixels: seq<seq<byte>>)
    requires 0 <= ox < dstW && 0 <= at <= at + 4 <= dst.Length
    requires IsAxis(srcW, dstW, taps, first, weight)
    requires |row| == 4 * srcW && acc.Length == 4 * (srcW + taps) && acc[..|row|] == row
    requires ArePixels(pixels, row, srcW, dstW)
    modifies dst
    ensures dst[..at + 4] == old(dst[..at]) + pixels[ox]
  {
    TapsOfInside(srcW, dstW, ox);
    TableHasTaps(srcW, dstW, taps, first, weight, ox);
    var b, g, r := PixelSums(acc, first[ox], weight, ox * taps, taps, TapsOf(srcW, dstW, ox), row);
    dst[at] := U32(b + 32768) / 0x1_0000 % 256;
    dst[at + 1] := U32(g + 32768) / 0x1_0000 % 256;
    dst[at + 2] := U32(r + 32768) / 0x1_0000 % 256;
    dst[at + 3] := 255;
    assert pixels[ox] == ScaledPixel(row, srcW, dstW, ox);
  }

  // struct fd_scaler and its axes.
  class FdScaler {
    const srcW: int
    const srcH: int
    const dstW: int
    const dstH: int
    const xTaps: int
    const xFirst: seq<int>
    const xWeight: seq<int>
    const yTaps: int
    const yFirst: seq<int>
    const yWeight: seq<int>
    const acc: array<int>

    ghost predicate Valid()
    {
      && IsAxis(srcW, dstW, xTaps, xFirst, xWeight)
      && IsAxis(srcH, dstH, yTaps, yFirst, yWeight)
      && acc.Length == (srcW + xTaps) * 4
    }

    constructor (srcW: int, srcH: int, dstW: int, dstH: int)
      requires srcW > 0 && srcH > 0 && dstW > 0 && dstH > 0
      ensures Valid() && fresh(acc)
      ensures this.srcW == srcW && this.srcH == srcH && this.dstW == dstW && this.dstH == dstH
    {
      var ok, taps, first, weight := BuildAxis(srcW, dstW);
      var ok', taps', first', weight' := BuildAxis(srcH, dstH);
      this.srcW, this.srcH, this.dstW, this.dstH := srcW, srcH, dstW, dstH;
      xTaps, xFirst, xWeight := taps, first[..], weight[..];
      yTaps, yFirst, yWeight := taps', first'[..], weight'[..];
      acc := new int[(srcW + taps) * 4](_ => 0);
    }

    // fd_scale_bgra: every source size and every stride, wrap-around included. The
    // frame it is handed may be read up to its last pixel and no further.
    method Scale(src: array<byte>, stride: int, dst: array<byte>)
      requires Valid() && Holds(src[..], stride, srcW, srcH)
      requires dst.Length == dstH * (4 * dstW) && dst != src
      modifies acc, dst
      ensures Valid()
      ensures dst[..] == Packed(ScaledFrame(FrameIn(src[..], stride, srcW, srcH), srcW, srcH, dstW, dstH), dstH)
    {
      ghost var f := FrameIn(src[..], stride, srcW, srcH);
      ghost var g := ScaledFrame(f, srcW, srcH, dstW, dstH);
      PackedLength(g, 4 * dstW, dstH);
      ScaleRows(src, stride, dst, src[..], f, g);
    }

    ghost predicate AreScaledRows(g: Frame, f: Frame)
    {
      && IsFrame(f, srcW, srcH) && |g| == dstH && dstW > 0
      && forall oy {:trigger ScaledRow(f, srcW, srcH, dstW, dstH, oy)} ::
           0 <= oy < dstH ==> g[oy] == ScaledRow(f, srcW, srcH, dstW, dstH, oy)
    }

    // The loop over output rows.
    method ScaleRows(src: array<byte>, stride: int, dst: array<byte>, ghost mem: seq<byte>,
                     ghost f: Frame, ghost g: Frame)
      requires Valid() && src[..] == mem && Holds(mem, stride, srcW, srcH)
      requires f == FrameIn(mem, stride, srcW, srcH)
      requires |g| == dstH && dst.Length == |Packed(g, dstH)| && dst != src
      requires forall oy :: 0 <= oy < dstH ==> |g[oy]| == 4 * dstW
      requires AreScaledRows(g, f)
      modifies acc, dst
      ensures dst[..] == Packed(g, dstH)
    {
      ghost var done := [];
      var oy, at := 0, 0;
      while oy < dstH
        invariant 0 <= oy <= dstH && at == |done| <= dst.Length
        invariant dst[..at] == done
        invariant done == Packed(g, oy)
        invariant src[..] == mem
      {
        PackedGrows(g, 4 * dstW, oy, dstH);
        OutputRow(src, stride, dst, oy, at, mem, f, g);
        done := done + g[oy];
        oy, at := oy + 1, at + 4 * dstW;
      }
      assert dst[..at] == dst[..];
    }

    // One pass of the outer loop.
    method OutputRow(src: array<byte>, stride: int, dst: array<byte>, oy: int, at: int,
                     ghost mem: seq<byte>,
                     ghost f: Frame, ghost g: Frame)
      requires Valid() && src[..] == mem && Holds(mem, stride, srcW, srcH)
      requires 0 <= oy < dstH && 0 <= at <= at + 4 * dstW <= dst.Length && dst != src
      requires f == FrameIn(mem, stride, srcW, srcH)
      requires AreScaledRows(g, f)
      modifies acc, dst
      ensures dst[..at + 4 * dstW] == old(dst[..at]) + g[oy]
    {
      ghost var y, row, pixels := RowFacts(f, g, oy);
      TableHasTaps(srcH, dstH, yTaps, yFirst, yWeight, oy);
      var base := oy * yTaps;
      VerticalPass(acc, src, stride, srcW, srcH, yWeight, base, yTaps, y, yFirst[oy]);
      assert acc[..4 * srcW] == row;
      HorizontalPass(acc, dst, at, xFirst, xWeight, xTaps, srcW, dstW, row, pixels);
    }

    lemma RowFacts(f: Frame, g: Frame, oy: int) returns (y: Taps, row: seq<int>, pixels: seq<seq<byte>>)
      requires AreScaledRows(g, f) && 0 <= oy < dstH
      ensures Count(srcH, dstH, oy) >= 1 && y == TapsOf(srcH, dstH, oy) && y.Inside(srcH)
      ensures row == AccRow(f, y, srcW)
      ensures ArePixels(pixels, row, srcW, dstW) && g[oy] == Packed(pixels, dstW)
    {
      TapsOfInside(srcH, dstH, oy);
      y := TapsOf(srcH, dstH, oy);
      row := AccRow(f, y, srcW);
      pixels := ScaledPixels(row, srcW, dstW);
      assert g[oy] == ScaledRow(f, srcW, srcH, dstW, dstH, oy);
    }
  }
}
