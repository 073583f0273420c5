/** Keeping the mouse pointer drawn into a frame
    (host-agent/internal/capture/cursor_windows.go). The drawing itself is GDI's: a
    function of the pixels and of where what is drawn, known only to touch the
    rectangle the cursor was measured to cover. */
module Cursor {
  import opened Prelude

  type Pixels = seq<byte>

  // Hotspot and size of a cursor, as measured.
  datatype Size = Size(hotX: int, hotY: int, cw: int, ch: int)

  // What DrawIconEx is told: the shape of the bitmap, the top-left corner, the cursor
  // and its step.
  datatype Spot = Spot(w: int, h: int, stride: int, left: int, top: int, handle: int, step: int)

  // A rectangle within a frame.
  datatype Rect = Rect(x: int, y: int, w: int, h: int)

  datatype PointerState = PointerState(visible: bool, handle: int, step: int, x: int, y: int)

  const HIDDEN: PointerState := PointerState(false, 0, 0, 0, 0)

  // What of a cursor of the given size is in a frame.
  function Clip(w: int, h: int, left: int, top: int, cw: int, ch: int): Rect
  {
    var x, y := Max(left, 0), Max(top, 0);
    Rect(x, y, Min(left + cw, w) - x, Min(top + ch, h) - y)
  }

  predicate Covers(r: Rect) { r.w > 0 && r.h > 0 }

  predicate Within(r: Rect, w: int, h: int, stride: int)
  {
    0 <= r.x && 0 <= r.y && 0 < r.w && 0 < r.h && r.x + r.w <= w && r.y + r.h <= h && 4 * w <= stride
  }

  // Where row i of a rectangle starts, in bytes.
  function Off(stride: int, r: Rect, i: int): int { (r.y + i) * stride + r.x * 4 }

  // Whether a byte is in one of the first n rows of a rectangle.
  predicate InRows(stride: int, r: Rect, n: nat, k: int)
  {
    n > 0 && (InRows(stride, r, n - 1, k) || Off(stride, r, n - 1) <= k < Off(stride, r, n - 1) + r.w * 4)
  }

  lemma RowFits(w: int, h: int, stride: int, r: Rect, i: int)
    requires Within(r, w, h, stride) && 0 <= i < r.h
    ensures 0 <= Off(stride, r, i) && Off(stride, r, i) + r.w * 4 <= stride * h
  {
    MulMonotone(r.y + i + 1, h, stride);
    Distribute(r.y + i, 1, stride);
    MulMonotone(0, r.y + i, stride);
  }

  lemma RowsFit(w: int, h: int, stride: int, r: Rect)
    requires Within(r, w, h, stride)
    ensures forall i {:trigger Off(stride, r, i)} :: 0 <= i < r.h ==>
              0 <= Off(stride, r, i) && Off(stride, r, i) + r.w * 4 <= stride * h
  {
    forall i | 0 <= i < r.h
      ensures 0 <= Off(stride, r, i) && Off(stride, r, i) + r.w * 4 <= stride * h
    {
      RowFits(w, h, stride, r, i);
    }
  }

  // --- Saving and putting back, on values ---

  function Overwritten(s: Pixels, at: nat, piece: Pixels): (t: Pixels)
    requires at + |piece| <= |s|
    ensures |t| == |s|
  {
    s[..at] + piece + s[at + |piece|..]
  }

  // The rows of a rectangle, first to last.
  ghost predicate Fitting(s: Pixels, w: int, h: int, stride: int, r: Rect)
  {
    Within(r, w, h, stride) && |s| == stride * h
  }

  function RowOf(s: Pixels, stride: int, r: Rect, i: int): Pixels
    requires 0 <= Off(stride, r, i) && 0 <= r.w && Off(stride, r, i) + r.w * 4 <= |s|
  {
    s[Off(stride, r, i)..Off(stride, r, i) + r.w * 4]
  }

  ghost function RowsOf(s: Pixels, w: int, h: int, stride: int, r: Rect): (rows: seq<Pixels>)
    requires Fitting(s, w, h, stride, r)
    ensures |rows| == r.h
    ensures forall i {:trigger rows[i]} :: 0 <= i < r.h ==> |rows[i]| == r.w * 4
  {
    RowsFit(w, h, stride, r);
    seq(r.h, i requires 0 <= i < r.h => RowOf(s, stride, r, i))
  }

  // The first n saved rows, put back.
  ghost function PutBack(s: Pixels, rows: seq<Pixels>, w: int, h: int, stride: int, r: Rect, n: nat): (t: Pixels)
    requires Fitting(s, w, h, stride, r) && n <= r.h == |rows|
    requires forall i {:trigger rows[i]} :: 0 <= i < r.h ==> |rows[i]| == r.w * 4
    ensures |t| == |s|
  {
    if n == 0 then s
    else
      RowFits(w, h, stride, r, n - 1);
      Overwritten(PutBack(s, rows, w, h, stride, r, n - 1), Off(stride, r, n - 1), rows[n - 1])
  }

  // Putting back the rows of `from` makes those rows, and nothing else, as in `from`.
  lemma {:induction false} PutBackAt(s: Pixels, from: Pixels, w: int, h: int, stride: int, r: Rect, n: nat, k: nat)
    requires Fitting(s, w, h, stride, r) && |from| == |s| && n <= r.h && k < |s|
    ensures PutBack(s, RowsOf(from, w, h, stride, r), w, h, stride, r, n)[k]
         == if InRows(stride, r, n, k) then from[k] else s[k]
  {
    if n == 0 {
    } else {
      RowFits(w, h, stride, r, n - 1);
      PutBackAt(s, from, w, h, stride, r, n - 1, k);
    }
  }

  // A change within the rectangle is undone by putting back what was saved from it.
  lemma PutBackUndoes(s: Pixels, from: Pixels, w: int, h: int, stride: int, r: Rect)
    requires Fitting(s, w, h, stride, r) && |from| == |s|
    requires forall k :: 0 <= k < |s| && !InRows(stride, r, r.h, k) ==> s[k] == from[k]
    ensures PutBack(s, RowsOf(from, w, h, stride, r), w, h, stride, r, r.h) == from
  {
    forall k | 0 <= k < |s|
      ensures PutBack(s, RowsOf(from, w, h, stride, r), w, h, stride, r, r.h)[k] == from[k]
    {
      PutBackAt(s, from, w, h, stride, r, r.h, k);
    }
  }

  // --- Copies between a frame and the saved rows ---

  // Go's copy, between two buffers.
  method CopyBytes(dst: array<byte>, at: nat, src: array<byte>, from: nat, n: nat)
    requires dst != src && at + n <= dst.Length && from + n <= src.Length
    modifies dst
    ensures dst[..] == Overwritten(old(dst[..]), at, src[from..from + n])
  {
    forall k | 0 <= k < n {
      dst[at + k] := src[from + k];
    }
    assert forall k :: 0 <= k < dst.Length ==> dst[..][k] == Overwritten(old(dst[..]), at, src[from..from + n])[k];
  }

  // The rows of the rectangle, one after the other, as `under` holds them.
  ghost predicate Saved(under: Pixels, rows: seq<Pixels>, row: nat)
  {
    && (forall i {:trigger rows[i]} :: 0 <= i < |rows| ==> |rows[i]| == row)
    && |rows| * row <= |under| && under[..|rows| * row] == Packed(rows, |rows|)
  }

  lemma SavedRow(under: Pixels, rows: seq<Pixels>, row: nat, i: nat)
    requires Saved(under, rows, row) && i < |rows|
    ensures 0 <= i * row && i * row + row <= |rows| * row && under[i * row..i * row + row] == rows[i]
  {
    PackedPiece(rows, row, |rows|, i);
    PackedLength(rows, row, |rows|);
    MulMonotone(i + 1, |rows|, row);
    Distribute(i, 1, row);
    assert under[..|rows| * row][i * row..i * row + row] == under[i * row..i * row + row];
  }

  method PutRowsBack(pix: array<byte>, under: array<byte>, w: int, h: int, stride: int, r: Rect,
                     ghost rows: seq<Pixels>)
    requires pix != under && Fitting(pix[..], w, h, stride, r) && |rows| == r.h && Saved(under[..], rows, r.w * 4)
    modifies pix
    ensures pix[..] == PutBack(old(pix[..]), rows, w, h, stride, r, r.h)
  {
    ghost var s, u := pix[..], under[..];
    var row := r.w * 4;
    var i := 0;
    while i < r.h
      invariant 0 <= i <= r.h && pix[..] == PutBack(s, rows, w, h, stride, r, i)
    {
      RowFits(w, h, stride, r, i);
      SavedRow(u, rows, row, i);
      var off, from := Off(stride, r, i), i * row;
      assert under[from..from + row] == rows[i];
      CopyBytes(pix, off, under, from, row);
      i := i + 1;
    }
  }

  lemma NextRow(i: nat, n: nat, row: nat)
    requires i < n
    ensures (i + 1) * row == i * row + row <= n * row
  {
    Distribute(i, 1, row);
    MulMonotone(i + 1, n, row);
  }

  method SaveRow(pix: array<byte>, under: array<byte>, off: nat, from: nat, row: nat)
    requires pix != under && off + row <= pix.Length && from + row <= under.Length
    modifies under
    ensures under[..from + row] == old(under[..from]) + pix[off..off + row]
  {
    CopyBytes(under, from, pix, off, row);
  }

  method SaveRows(pix: array<byte>, under: array<byte>, w: int, h: int, stride: int, r: Rect)
    requires pix != under && Fitting(pix[..], w, h, stride, r) && r.h * (r.w * 4) <= under.Length
    modifies under
    ensures Saved(under[..], RowsOf(pix[..], w, h, stride, r), r.w * 4)
  {
    ghost var s := pix[..];
    ghost var rows := RowsOf(s, w, h, stride, r);
    var row := r.w * 4;
    var i, from := 0, 0;
    while i < r.h
      invariant 0 <= i <= r.h && from == i * row && 0 <= from <= under.Length && under[..from] == Packed(rows, i)
      invariant pix[..] == s
    {
      RowFits(w, h, stride, r, i);
      NextRow(i, r.h, row);
      SaveRow(pix, under, Off(stride, r, i), from, row);
      i, from := i + 1, from + row;
    }
  }

  // --- The painter ---

  // A frame: h rows of stride bytes, the first 4w of each the pixels.
  class Picture {
    const w: int
    const h: int
    const stride: int
    const pix: array<byte>

    constructor (w: int, h: int, stride: int)
      requires 0 < w && 0 < h && 4 * w <= stride
      ensures this.w == w && this.h == h && this.stride == stride && Shaped() && fresh(pix)
    {
      MulMonotone(0, h, stride);
      this.w, this.h, this.stride := w, h, stride;
      pix := new byte[stride * h](_ => 0);
    }

    ghost predicate Shaped() { 0 < w && 0 < h && 4 * w <= stride && pix.Length == stride * h }
  }

  // Where the pointer is drawn in a frame, and what of it is in the frame.
  function SpotOf(w: int, h: int, stride: int, size: Size, p: PointerState): Spot
  {
    Spot(w, h, stride, p.x - size.hotX, p.y - size.hotY, p.handle, p.step)
  }

  function RectOf(s: Spot, size: Size): Rect { Clip(s.w, s.h, s.left, s.top, size.cw, size.ch) }

  ghost predicate Outside(p: Spot, size: Size, k: int)
  {
    var r := RectOf(p, size);
    Covers(r) && !InRows(p.stride, r, r.h, k)
  }

  // The hotspot of the cursor is where the pointer is, ...
  lemma HotspotIsThePointer(w: int, h: int, stride: int, size: Size, p: PointerState)
    ensures var s := SpotOf(w, h, stride, size, p);
            && s.left + size.hotX == p.x && s.top + size.hotY == p.y && s.handle == p.handle && s.step == p.step
            && s.w == w && s.h == h && s.stride == stride
  {
  }

  // ... and the rectangle saved is what the cursor and the frame have in common, pixel
  // for pixel and byte for byte.
  lemma RectIsCommon(s: Spot, size: Size, x: int, y: int)
    ensures var r := RectOf(s, size);
            (r.x <= x < r.x + r.w && r.y <= y < r.y + r.h)
            <==> 0 <= x < s.w && 0 <= y < s.h && s.left <= x < s.left + size.cw && s.top <= y < s.top + size.ch
  {
  }

  lemma RowsAreItsPixels(stride: int, r: Rect, x: int, y: int, c: int)
    requires 0 <= r.x && 0 <= r.w && 4 * (r.x + r.w) <= stride && 0 <= r.h && 0 <= c < 4 && 0 <= 4 * x + c < stride
    ensures InRows(stride, r, r.h, y * stride + 4 * x + c)
            <==> r.x <= x < r.x + r.w && r.y <= y < r.y + r.h
  {
    RowsAre(stride, r, r.h, x, y, c);
  }

  lemma {:induction false} RowsAre(stride: int, r: Rect, n: nat, x: int, y: int, c: int)
    requires 0 <= r.x && 0 <= r.w && 4 * (r.x + r.w) <= stride && 0 <= c < 4 && 0 <= 4 * x + c < stride
    ensures InRows(stride, r, n, y * stride + 4 * x + c) <==> r.x <= x < r.x + r.w && r.y <= y < r.y + n
  {
    if n == 0 {
    } else {
      RowsAre(stride, r, n - 1, x, y, c);
      InOneRow(stride, r, n - 1, x, y, c);
    }
  }

  lemma InOneRow(stride: int, r: Rect, i: int, x: int, y: int, c: int)
    requires 0 <= r.x && 0 <= r.w && 4 * (r.x + r.w) <= stride && 0 <= c < 4 && 0 <= 4 * x + c < stride
    ensures Off(stride, r, i) <= y * stride + 4 * x + c < Off(stride, r, i) + r.w * 4
            <==> r.x <= x < r.x + r.w && y == r.y + i
  {
    if y < r.y + i {
      MulMonotone(y + 1, r.y + i, stride);
      Distribute(y, 1, stride);
    } else if y > r.y + i {
      MulMonotone(r.y + i + 1, y, stride);
      Distribute(r.y + i, 1, stride);
    }
  }

  // What GDI is known to do: nothing outside the rectangle the cursor covers.
  ghost predicate Confined(gdi: (Pixels, Spot) -> Pixels, measure: int -> Size)
  {
    && (forall s: Pixels, p: Spot {:trigger gdi(s, p)} :: |gdi(s, p)| == |s|)
    && (forall s: Pixels, p: Spot, k: int {:trigger gdi(s, p)[k]} ::
          0 <= k < |s| && Outside(p, measure(p.handle), k) ==> gdi(s, p)[k] == s[k])
  }

  // A desktop with a pointer drawn on it: what a painted frame must look like.
  ghost function Look(gdi: (Pixels, Spot) -> Pixels, measure: int -> Size, desktop: Pixels,
                      w: int, h: int, stride: int, p: PointerState): Pixels
  {
    var spot := SpotOf(w, h, stride, measure(p.handle), p);
    if p.visible && Covers(RectOf(spot, measure(p.handle))) then gdi(desktop, spot) else desktop
  }

  class CursorPainter {
    const gdi: (Pixels, Spot) -> Pixels
    const measure: int -> Size
    var handle: int
    var size: Size
    var frame: Picture?
    var last: PointerState
    var valid: bool
    var drawn: bool
    var rect: Rect
    var under: array<byte>
    ghost var clean: Pixels   // the desktop without the pointer

    constructor (gdi: (Pixels, Spot) -> Pixels, measure: int -> Size)
      requires Confined(gdi, measure)
      ensures Coherent() && !valid && this.gdi == gdi && this.measure == measure && fresh(under)
    {
      this.gdi, this.measure := gdi, measure;
      handle, size, frame, last, valid, drawn, rect :=
        0, Size(0, 0, 0, 0), null, HIDDEN, false, false, Rect(0, 0, 0, 0);
      under := new byte[0];
      clean := [];
    }

    // Where the last pointer was drawn.
    ghost function LastRect(f: Picture): Rect
      reads this
    {
      RectOf(SpotOf(f.w, f.h, f.stride, measure(last.handle), last), measure(last.handle))
    }

    // What the painter remembers of the frame it painted last.
    ghost predicate Coherent()
      reads this, under
    {
      && Confined(gdi, measure)
      && (handle != 0 ==> size == measure(handle))
      && (last.visible ==> last.handle != 0)
      && (drawn ==> valid) && (valid ==> frame != null)
      && (frame != null ==> frame.Shaped() && frame.pix != under)
      && (valid ==>
            && |clean| == frame.pix.Length
            && (drawn <==> last.visible && Covers(LastRect(frame))))
      && (drawn ==>
            && rect == LastRect(frame) && Fitting(clean, frame.w, frame.h, frame.stride, rect)
            && Saved(under[..], RowsOf(clean, frame.w, frame.h, frame.stride, rect), rect.w * 4))
    }

    // measure.
    method Measure(h: int)
      modifies this`handle, this`size
      ensures handle == h && size == measure(h)
    {
      handle, size := h, measure(h);
    }

    method Restore(f: Picture)
      requires Coherent() && drawn && f == frame
      requires f.pix[..] == Look(gdi, measure, clean, f.w, f.h, f.stride, last)
      modifies f.pix, this`drawn
      ensures f.pix[..] == clean && !drawn
    {
      ghost var spot := SpotOf(f.w, f.h, f.stride, measure(last.handle), last);
      assert f.pix[..] == gdi(clean, spot);
      PutBackUndoes(f.pix[..], clean, f.w, f.h, f.stride, rect);
      PutRowsBack(f.pix, under, f.w, f.h, f.stride, rect, RowsOf(clean, f.w, f.h, f.stride, rect));
      drawn := false;
    }

    // DrawIconEx.
    method DrawIcon(f: Picture, spot: Spot)
      requires Confined(gdi, measure)
      modifies f.pix
      ensures f.pix[..] == gdi(old(f.pix[..]), spot)
    {
      var after := gdi(f.pix[..], spot);
      forall k | 0 <= k < f.pix.Length {
        f.pix[k] := after[k];
      }
      assert forall k :: 0 <= k < f.pix.Length ==> f.pix[..][k] == after[k];
    }

    // save, in a buffer that is replaced only when it is too small.
    method Save(f: Picture)
      requires f.Shaped() && f.pix != under && Fitting(f.pix[..], f.w, f.h, f.stride, rect)
      modifies this`under, under
      ensures under != f.pix && (under == old(under) || fresh(under))
      ensures Saved(under[..], RowsOf(f.pix[..], f.w, f.h, f.stride, rect), rect.w * 4)
    {
      MulMonotone(0, rect.h, rect.w * 4);
      if under.Length < rect.h * (rect.w * 4) {
        under := new byte[rect.h * (rect.w * 4)];
      }
      SaveRows(f.pix, under, f.w, f.h, f.stride, rect);
    }

    // draw, on a desktop that has no pointer in it.
    method Draw(f: Picture, cur: PointerState) returns (did: bool)
      requires Confined(gdi, measure) && f.Shaped() && f.pix != under && (handle != 0 ==> size == measure(handle))
      requires cur.visible && cur.handle != 0 && !drawn
      modifies this`handle, this`size, this`rect, this`under, this`drawn, under, f.pix
      ensures under != f.pix && (under == old(under) || fresh(under)) && handle != 0 && size == measure(handle)
      ensures f.pix[..] == Look(gdi, measure, old(f.pix[..]), f.w, f.h, f.stride, cur) && drawn == did
      ensures var spot := SpotOf(f.w, f.h, f.stride, measure(cur.handle), cur);
              did == Covers(RectOf(spot, measure(cur.handle))) && (did ==> rect == RectOf(spot, measure(cur.handle)))
      ensures did ==>
                && Fitting(old(f.pix[..]), f.w, f.h, f.stride, rect)
                && Saved(under[..], RowsOf(old(f.pix[..]), f.w, f.h, f.stride, rect), rect.w * 4)
    {
      if cur.handle != handle {
        Measure(cur.handle);
      }
      var left, top := cur.x - size.hotX, cur.y - size.hotY;
      var r := Clip(f.w, f.h, left, top, size.cw, size.ch);
      if r.w <= 0 || r.h <= 0 {
        return false;
      }
      rect := r;
      Save(f);
      DrawIcon(f, Spot(f.w, f.h, f.stride, left, top, cur.handle, cur.step));
      drawn := true;
      return true;
    }

    // What paint finds in the frame: a new desktop image, when it was just
    // overwritten, is another frame, or was never painted; else what it painted last.
    ghost predicate Finds(f: Picture, desktop: Pixels, anew: bool)
      reads this, f.pix
    {
      if anew || f != frame || !valid then f.pix[..] == desktop
      else desktop == clean && f.pix[..] == Look(gdi, measure, clean, f.w, f.h, f.stride, last)
    }

    // The pointer painted last is taken out of the frame, if it is still in it.
    method Erase(f: Picture, ghost desktop: Pixels, anew: bool) returns (changed: bool)
      requires Coherent() && f == frame && f.Shaped() && Finds(f, desktop, anew)
      modifies this`drawn, f.pix
      ensures f.pix[..] == desktop && !drawn && (!changed ==> f.pix[..] == old(f.pix[..]))
    {
      changed := false;
      if anew {
        drawn := false;
      } else if drawn {
        Restore(f);
        changed := true;
      }
    }

    // paint, for a pointer in the state `cur`: whatever was there, the frame is then
    // the desktop with that pointer on it.
    method PaintPointer(f: Picture, ghost desktop: Pixels, anew: bool, cur: PointerState) returns (changed: bool)
      requires Coherent() && f.Shaped() && f.pix != under && Finds(f, desktop, anew)
      requires cur.visible ==> cur.handle != 0
      modifies this, under, f.pix
      ensures Coherent() && frame == f && valid && last == cur && clean == desktop
      ensures under == old(under) || fresh(under)
      ensures f.pix[..] == Look(gdi, measure, desktop, f.w, f.h, f.stride, cur)
      ensures !changed ==> f.pix[..] == old(f.pix[..])
    {
      if f != frame {
        frame, valid, drawn := f, false, false;
      }
      if !anew && valid && cur == last {
        return false;
      }
      changed := Erase(f, desktop, anew);
      var did := Show(f, cur);
      changed := changed || did;
      clean := desktop;
    }

    // The pointer is drawn, if it shows, and remembered.
    method Show(f: Picture, cur: PointerState) returns (did: bool)
      requires Confined(gdi, measure) && f == frame && f.Shaped() && f.pix != under && !drawn
      requires (handle != 0 ==> size == measure(handle)) && (cur.visible ==> cur.handle != 0)
      modifies this, under, f.pix
      ensures under != f.pix && (under == old(under) || fresh(under)) && frame == f && valid && last == cur
      ensures handle != 0 ==> size == measure(handle)
      ensures f.pix[..] == Look(gdi, measure, old(f.pix[..]), f.w, f.h, f.stride, cur)
      ensures (!did ==> f.pix[..] == old(f.pix[..])) && (drawn <==> cur.visible && Covers(LastRect(f)))
      ensures drawn ==>
                && rect == LastRect(f) && Fitting(old(f.pix[..]), f.w, f.h, f.stride, rect)
                && Saved(under[..], RowsOf(old(f.pix[..]), f.w, f.h, f.stride, rect), rect.w * 4)
    {
      did := false;
      if cur.visible {
        did := Draw(f, cur);
      }
      last, valid := cur, true;
    }

    // paint. `info` is what GetCursorInfo says: nothing, or a cursor and where it is
    // on the virtual screen.
    method Paint(f: Picture, ghost desktop: Pixels, originX: int, originY: int, anew: bool,
                 info: Option<(int, int, int)>, anim: AnimatedCursor, now: int)
      returns (changed: bool, cur: PointerState)
      requires Coherent() && f.Shaped() && f.pix != under && Finds(f, desktop, anew)
      requires anim.Running(now)
      modifies this, under, f.pix, anim
      ensures Coherent() && frame == f && valid && last == cur && clean == desktop && anim.Running(now)
      ensures under == old(under) || fresh(under)
      ensures cur.visible <==> info.Some? && info.value.0 != 0
      ensures cur.visible ==>
                && cur.handle == info.value.0 && cur.x == info.value.1 - originX && cur.y == info.value.2 - originY
                && cur.step == StepAt(anim.steps, anim.rate, anim.start, now) && anim.handle == cur.handle
      ensures f.pix[..] == Look(gdi, measure, desktop, f.w, f.h, f.stride, cur)
      ensures !changed ==> f.pix[..] == old(f.pix[..])
    {
      cur := HIDDEN;
      if info.Some? && info.value.0 != 0 {
        var step := anim.Step(info.value.0, now);
        cur := PointerState(true, info.value.0, step, info.value.1 - originX, info.value.2 - originY);
      }
      changed := PaintPointer(f, desktop, anew, cur);
    }
  }

  // --- The painter over a whole capture ---

  // A bitmap's shape, and the desktop in it without the pointer.
  datatype Screen = Screen(w: int, h: int, stride: int, desktop: Pixels) {
    predicate Shaped() { 0 < w && 0 < h && 4 * w <= stride && |desktop| == stride * h }

    ghost predicate In(f: Picture) { f.Shaped() && f.w == w && f.h == h && f.stride == stride }
  }

  // What the source does before a tick: nothing; a new desktop image in its bitmap; or
  // another bitmap, which may count as a new image or not.
  datatype Change = Still | Image(desktop: Pixels) | Bitmap(screen: Screen, anew: bool)

  // A tick of the capture loop, and the pointer there is then.
  datatype Tick = Tick(change: Change, cur: PointerState)

  function Changed(s: Screen, c: Change): Screen
  {
    match c
    case Still => s
    case Image(desktop) => s.(desktop := desktop)
    case Bitmap(screen, _) => screen
  }

  predicate Possible(s: Screen, t: Tick)
  {
    && (t.cur.visible ==> t.cur.handle != 0)
    && (t.change.Image? ==> |t.change.desktop| == |s.desktop|)
    && (t.change.Bitmap? ==> t.change.screen.Shaped())
  }

  function ScreenAfter(s: Screen, ticks: seq<Tick>): Screen
  {
    if ticks == [] then s else Changed(ScreenAfter(s, ticks[..|ticks| - 1]), ticks[|ticks| - 1].change)
  }

  predicate AllPossible(s: Screen, ticks: seq<Tick>)
  {
    ticks == [] ||
    (AllPossible(s, ticks[..|ticks| - 1]) && Possible(ScreenAfter(s, ticks[..|ticks| - 1]), ticks[|ticks| - 1]))
  }

  lemma {:induction false} PossibleAt(s: Screen, ticks: seq<Tick>, i: nat)
    requires AllPossible(s, ticks) && i < |ticks|
    ensures Possible(ScreenAfter(s, ticks[..i]), ticks[i])
  {
    if i == |ticks| - 1 {
    } else {
      PossibleAt(s, ticks[..|ticks| - 1], i);
      assert ticks[..|ticks| - 1][..i] == ticks[..i];
    }
  }

  // What a frame shows: the latest desktop there is, with the pointer on it.
  ghost function Shown(p: CursorPainter, s: Screen, cur: PointerState): Pixels
  {
    Look(p.gdi, p.measure, s.desktop, s.w, s.h, s.stride, cur)
  }

  ghost function AllShown(p: CursorPainter, s: Screen, ticks: seq<Tick>): (frames: seq<Pixels>)
    ensures |frames| == |ticks|
  {
    if ticks == [] then []
    else
      var last := |ticks| - 1;
      AllShown(p, s, ticks[..last]) + [Shown(p, ScreenAfter(s, ticks), ticks[last].cur)]
  }

  lemma {:induction false} AllShownAt(p: CursorPainter, s: Screen, ticks: seq<Tick>, i: nat)
    requires i < |ticks|
    ensures AllShown(p, s, ticks)[i] == Shown(p, ScreenAfter(s, ticks[..i + 1]), ticks[i].cur)
  {
    if i == |ticks| - 1 {
      assert ticks[..i + 1] == ticks;
    } else {
      AllShownAt(p, s, ticks[..|ticks| - 1], i);
      assert ticks[..|ticks| - 1][..i + 1] == ticks[..i + 1];
    }
  }

  // The bitmap is overwritten with a new desktop image.
  method CopyImage(f: Picture, desktop: Pixels)
    requires |desktop| == f.pix.Length
    modifies f.pix
    ensures f.pix[..] == desktop
  {
    forall k | 0 <= k < f.pix.Length {
      f.pix[k] := desktop[k];
    }
  }

  method ChangeFrame(f: Picture, ghost s: Screen, c: Change) returns (g: Picture, anew: bool)
    requires s.In(f) && (c.Image? ==> |c.desktop| == f.pix.Length) && (c.Bitmap? ==> c.screen.Shaped())
    modifies f.pix
    ensures Changed(s, c).In(g) && anew == (c.Image? || (c.Bitmap? && c.anew))
    ensures if c.Bitmap? then fresh(g) && fresh(g.pix) else g == f
    ensures if c.Still? then g.pix[..] == old(f.pix[..]) else g.pix[..] == Changed(s, c).desktop
  {
    g, anew := f, false;
    match c {
      case Still =>
      case Image(desktop) =>
        CopyImage(f, desktop);
        anew := true;
      case Bitmap(screen, new') =>
        g := new Picture(screen.w, screen.h, screen.stride);
        CopyImage(g, screen.desktop);
        anew := new';
    }
  }

  // The painter can go on from this frame: it holds the desktop of the screen, with
  // what was painted last still on it.
  ghost predicate Follows(p: CursorPainter, f: Picture, s: Screen)
    reads p, p.under, f.pix
  {
    p.Coherent() && f.pix != p.under && s.Shaped() && s.In(f) && p.Finds(f, s.desktop, false)
  }

  // One tick: whatever was done to the frame, it then shows what it should, and the
  // painter can go on from there.
  method PaintTick(p: CursorPainter, f: Picture, ghost s: Screen, t: Tick) returns (g: Picture)
    requires Follows(p, f, s) && Possible(s, t)
    modifies p, p.under, f.pix
    ensures Follows(p, g, Changed(s, t.change))
    ensures g.pix[..] == Shown(p, Changed(s, t.change), t.cur)
    ensures (g == f || fresh(g.pix)) && (p.under == old(p.under) || fresh(p.under))
  {
    var anew: bool;
    g, anew := ChangeFrame(f, s, t.change);
    var _ := p.PaintPointer(g, Changed(s, t.change).desktop, anew, t.cur);
  }

  // After every tick of a capture, whatever new images and bitmaps the source brought
  // and wherever the pointer went, the frame shows the latest desktop with the pointer
  // on it: no pointer painted before is left in it, nor anything from under one.
  method PaintAll(p: CursorPainter, f: Picture, ghost s: Screen, ticks: seq<Tick>)
    returns (g: Picture, frames: seq<Pixels>)
    requires Follows(p, f, s) && AllPossible(s, ticks)
    modifies p, p.under, f.pix
    ensures |frames| == |ticks|
    ensures forall i :: 0 <= i < |ticks| ==> frames[i] == Shown(p, ScreenAfter(s, ticks[..i + 1]), ticks[i].cur)
    ensures Follows(p, g, ScreenAfter(s, ticks))
  {
    g, frames := f, [];
    ghost var now := s;
    for n := 0 to |ticks|
      invariant now == ScreenAfter(s, ticks[..n]) && Follows(p, g, now)
      invariant g.pix == f.pix || fresh(g.pix)
      invariant p.under == old(p.under) || fresh(p.under)
      invariant frames == AllShown(p, s, ticks[..n])
    {
      PossibleAt(s, ticks, n);
      assert ticks[..n + 1][..n] == ticks[..n];
      g := PaintTick(p, g, now, ticks[n]);
      now := Changed(now, ticks[n].change);
      frames := frames + [g.pix[..]];
    }
    assert ticks[..|ticks|] == ticks;
    forall i | 0 <= i < |ticks|
      ensures frames[i] == Shown(p, ScreenAfter(s, ticks[..i + 1]), ticks[i].cur)
    {
      AllShownAt(p, s, ticks, i);
    }
  }

  // --- Animated cursors ---

  // The frame of a cursor due at a time: it steps on every `rate`, round and round.
  function StepAt(steps: int, rate: int, start: int, now: int): int
  {
    if steps <= 1 || rate <= 0 then 0 else (now - start) / rate % steps
  }

  lemma StepInside(steps: int, rate: int, start: int, now: int)
    requires steps > 1 ==> rate > 0 && start <= now
    ensures 0 <= StepAt(steps, rate, start, now) < Max(steps, 1)
    ensures start == now ==> StepAt(steps, rate, start, now) == 0
  {
    if steps > 1 {
      ModBounds((now - start) / rate, steps);
    }
  }

  class AnimatedCursor {
    const frames: int -> (int, int)   // how many frames a cursor has, and how many jiffies each lasts
    var handle: int
    var steps: int
    var rate: int
    var start: int

    constructor (frames: int -> (int, int))
      ensures this.frames == frames && handle == 0 && steps == 0
    {
      this.frames := frames;
      handle, steps, rate, start := 0, 0, 0, 0;
    }

    // The clock never goes back behind the time the cursor appeared.
    ghost predicate Running(now: int)
      reads this
    {
      steps > 1 ==> start <= now && rate > 0
    }

    method Step(h: int, now: int) returns (step: int)
      requires Running(now)
      modifies this
      ensures Running(now) && handle == h && step == StepAt(steps, rate, start, now)
      ensures h == old(handle) ==> steps == old(steps) && rate == old(rate) && start == old(start)
      ensures h != old(handle) ==>
                && start == now && step == 0 && steps == Max(frames(h).0, 1)
                && (steps > 1 ==> rate == if frames(h).1 <= 0 then DEFAULT_ANI_RATE else frames(h).1 * JIFFY)
      ensures 0 <= step < Max(steps, 1)
    {
      if h != handle {
        handle, steps, rate, start := h, 1, 0, now;
        var f := frames(h);
        if f.0 > 1 {
          steps, rate := f.0, f.1 * JIFFY;
          if rate <= 0 {
            rate := DEFAULT_ANI_RATE;
          }
        }
      }
      StepInside(steps, rate, start, now);
      if steps <= 1 {
        return 0;
      }
      return (now - start) / rate % steps;
    }
  }

  const JIFFY: int := 16_666_666  // time.Second / 60
  const DEFAULT_ANI_RATE: int := 10 * JIFFY

  lemma ModBounds(a: int, n: int)
    requires n > 0
    ensures 0 <= a % n < n
  {
  }

  // One frame time later, an animated cursor shows the next frame; after the last, the
  // first again.
  lemma StepsOn(steps: int, rate: int, start: int, now: int)
    requires steps > 1 && rate > 0 && start <= now
    ensures var k := StepAt(steps, rate, start, now);
            && 0 <= k < steps
            && StepAt(steps, rate, start, now + rate) == if k + 1 == steps then 0 else k + 1
  {
    var a := (now - start) / rate;
    DivNext(now - start, rate);
    ModBounds(a, steps);
    ModNext(a, steps);
  }

  lemma DivNext(d: int, rate: int)
    requires rate > 0
    ensures (d + rate) / rate == d / rate + 1
  {
    var q, m := d / rate, d % rate;
    assert d + rate == (q + 1) * rate + m;
    QuotientIs(d + rate, rate, q + 1, m);
  }

  lemma ModNext(a: int, n: int)
    requires n > 1
    ensures (a + 1) % n == if a % n + 1 == n then 0 else a % n + 1
  {
    var q, m := a / n, a % n;
    if m + 1 == n {
      assert a + 1 == (q + 1) * n;
      QuotientIs(a + 1, n, q + 1, 0);
    } else {
      QuotientIs(a + 1, n, q, m + 1);
    }
  }

  lemma QuotientIs(a: int, n: int, q: int, m: int)
    requires n > 0 && 0 <= m < n && a == q * n + m
    ensures a / n == q && a % n == m
  {
    var d := a / n - q;
    assert a % n - m == -d * n;
    if d >= 1 {
      MulMonotone(1, d, n);
    } else if d <= -1 {
      MulMonotone(1, -d, n);
    }
  }
}
