/** BGRA to I420 with BT.601 limited-range coefficients (host-agent/internal/vpx/convert.c). */
module I420 {
  import opened Prelude
  import opened Scaling
  import opened FdScaler

  // The FD_Y, FD_U and FD_V macros, the cast to eight bits included.
  function FdY(r: int, g: int, b: int): int { (66 * r + 129 * g + 25 * b + 0x1080) / 256 % 256 }

  function FdU(r: int, g: int, b: int): int { (112 * b - 74 * g - 38 * r + 0x8080) / 256 % 256 }

  function FdV(r: int, g: int, b: int): int { (112 * r - 94 * g - 18 * b + 0x8080) / 256 % 256 }

  // Limited range, section 2.5 of Recommendation ITU-R BT.601-7: Y in 16..235, U
  // and V in 16..240, reached without clamping and with nothing cut off by the cast.
  lemma LimitedRange(r: byte, g: byte, b: byte)
    ensures 16 <= FdY(r, g, b) <= 235 && FdY(r, g, b) == (66 * r + 129 * g + 25 * b + 0x1080) / 256
    ensures 16 <= FdU(r, g, b) <= 240 && FdU(r, g, b) == (112 * b - 74 * g - 38 * r + 0x8080) / 256
    ensures 16 <= FdV(r, g, b) <= 240 && FdV(r, g, b) == (112 * r - 94 * g - 18 * b + 0x8080) / 256
  {
    InRange(66 * r + 129 * g + 25 * b + 0x1080, 16, 235);
    InRange(112 * b - 74 * g - 38 * r + 0x8080, 16, 240);
    InRange(112 * r - 94 * g - 18 * b + 0x8080, 16, 240);
  }

  lemma InRange(v: int, lo: byte, hi: byte)
    requires 256 * lo <= v < 256 * hi + 256
    ensures lo <= v / 256 <= hi && v / 256 % 256 == v / 256
  {
  }

  // ... and a grey pixel has no colour, exactly 128.
  lemma GreyHasNoChroma(v: byte)
    ensures FdU(v, v, v) == 128 && FdV(v, v, v) == 128
  {
  }

  function Luma(row: seq<byte>, x: int): byte
    requires 0 <= x && 4 * x + 4 <= |row|
  {
    FdY(row[4 * x + 2], row[4 * x + 1], row[4 * x])
  }

  function LumaRow(row: seq<byte>, w: nat): (line: seq<byte>)
    requires |row| == 4 * w
    ensures |line| == w
  {
    seq(w, x requires 0 <= x < w => Luma(row, x))
  }

  // Channel c of a 2x2 block, averaged and rounded: the block's left column is x.
  function BlockMean(top: seq<byte>, bottom: seq<byte>, x: int, c: int): (mean: int)
    requires |top| == |bottom| && 0 <= x && 4 * x + 8 <= |top| && 0 <= c < 4
    ensures 0 <= mean < 256
  {
    var a: int, b: int, d: int, e: int := top[4 * x + c], top[4 * x + 4 + c], bottom[4 * x + c], bottom[4 * x + 4 + c];
    (a + b + d + e + 2) / 4
  }

  function ChromaU(top: seq<byte>, bottom: seq<byte>, x: int): byte
    requires |top| == |bottom| && 0 <= x && 4 * x + 8 <= |top|
  {
    FdU(BlockMean(top, bottom, x, 2), BlockMean(top, bottom, x, 1), BlockMean(top, bottom, x, 0))
  }

  function ChromaV(top: seq<byte>, bottom: seq<byte>, x: int): byte
    requires |top| == |bottom| && 0 <= x && 4 * x + 8 <= |top|
  {
    FdV(BlockMean(top, bottom, x, 2), BlockMean(top, bottom, x, 1), BlockMean(top, bottom, x, 0))
  }

  function URow(top: seq<byte>, bottom: seq<byte>, w: nat): (line: seq<byte>)
    requires |top| == |bottom| == 4 * w
    ensures |line| == w / 2
  {
    seq(w / 2, j requires 0 <= j < w / 2 => ChromaU(top, bottom, 2 * j))
  }

  function VRow(top: seq<byte>, bottom: seq<byte>, w: nat): (line: seq<byte>)
    requires |top| == |bottom| == 4 * w
    ensures |line| == w / 2
  {
    seq(w / 2, j requires 0 <= j < w / 2 => ChromaV(top, bottom, 2 * j))
  }

  // The three planes, line by line.

  function YLines(f: Frame, w: int, h: int): (lines: seq<seq<byte>>)
    requires IsFrame(f, w, h)
    ensures |lines| == h && forall k :: 0 <= k < h ==> |lines[k]| == w
  {
    seq(h, r requires 0 <= r < h => LumaRow(f[r], w))
  }

  function ULines(f: Frame, w: int, h: int): (lines: seq<seq<byte>>)
    requires IsFrame(f, w, h)
    ensures |lines| == h / 2 && forall k :: 0 <= k < h / 2 ==> |lines[k]| == w / 2
  {
    seq(h / 2, r requires 0 <= r < h / 2 => URow(f[2 * r], f[2 * r + 1], w))
  }

  function VLines(f: Frame, w: int, h: int): (lines: seq<seq<byte>>)
    requires IsFrame(f, w, h)
    ensures |lines| == h / 2 && forall k :: 0 <= k < h / 2 ==> |lines[k]| == w / 2
  {
    seq(h / 2, r requires 0 <= r < h / 2 => VRow(f[2 * r], f[2 * r + 1], w))
  }

  // Every sample of a plane is within the limited range.
  lemma PlanesAreLimited(f: Frame, w: int, h: int)
    requires IsFrame(f, w, h) && w % 2 == 0 && h % 2 == 0
    ensures forall r, x :: 0 <= r < h && 0 <= x < w ==> 16 <= YLines(f, w, h)[r][x] <= 235
    ensures forall r, x :: 0 <= r < h / 2 && 0 <= x < w / 2 ==> 16 <= ULines(f, w, h)[r][x] <= 240
    ensures forall r, x :: 0 <= r < h / 2 && 0 <= x < w / 2 ==> 16 <= VLines(f, w, h)[r][x] <= 240
  {
    forall r, x | 0 <= r < h && 0 <= x < w
      ensures 16 <= YLines(f, w, h)[r][x] <= 235
    {
      LimitedRange(f[r][4 * x + 2], f[r][4 * x + 1], f[r][4 * x]);
    }
    forall r, x | 0 <= r < h / 2 && 0 <= x < w / 2
      ensures 16 <= ULines(f, w, h)[r][x] <= 240 && 16 <= VLines(f, w, h)[r][x] <= 240
    {
      var top, bottom := f[2 * r], f[2 * r + 1];
      LimitedRange(BlockMean(top, bottom, 2 * x, 2),
                   BlockMean(top, bottom, 2 * x, 1),
                   BlockMean(top, bottom, 2 * x, 0));
    }
  }

  // --- What the planes mean ---

  // Byte c of a pixel, and of the four pixels of a 2x2 block, added up: blue, green and
  // red are bytes 0, 1 and 2.
  function At(f: Frame, w: int, h: int, r: int, x: int, c: int): int
    requires IsFrame(f, w, h) && 0 <= r < h && 0 <= x < w && 0 <= c < 4
  {
    f[r][4 * x + c]
  }

  function BlockSum(f: Frame, w: int, h: int, i: int, j: int, c: int): int
    requires IsFrame(f, w, h) && 0 <= i < h / 2 && 0 <= j < w / 2 && 0 <= c < 4
  {
    At(f, w, h, 2 * i, 2 * j, c) + At(f, w, h, 2 * i, 2 * j + 1, c)
    + At(f, w, h, 2 * i + 1, 2 * j, c) + At(f, w, h, 2 * i + 1, 2 * j + 1, c)
  }

  // A luma sample is 16 above the weighted sum of its pixel, in 256ths and rounded to
  // nearest.
  lemma LumaMeans(f: Frame, w: int, h: int, r: int, x: int)
    requires IsFrame(f, w, h) && 0 <= r < h && 0 <= x < w
    ensures var blue, green, red := At(f, w, h, r, x, 0), At(f, w, h, r, x, 1), At(f, w, h, r, x, 2);
            -128 < 256 * (YLines(f, w, h)[r][x] - 16) - (66 * red + 129 * green + 25 * blue) <= 128
  {
    LumaRounds(f[r][4 * x + 2], f[r][4 * x + 1], f[r][4 * x]);
  }

  lemma LumaRounds(r: int, g: int, b: int)
    requires 0 <= r < 256 && 0 <= g < 256 && 0 <= b < 256
    ensures -128 < 256 * (FdY(r, g, b) - 16) - (66 * r + 129 * g + 25 * b) <= 128
  {
    LimitedRange(r, g, b);
    RoundedBy(66 * r + 129 * g + 25 * b, 16);
  }

  lemma ChromaRounds(r: int, g: int, b: int)
    requires 0 <= r < 256 && 0 <= g < 256 && 0 <= b < 256
    ensures -128 < 256 * (FdU(r, g, b) - 128) - (112 * b - 74 * g - 38 * r) <= 128
    ensures -128 < 256 * (FdV(r, g, b) - 128) - (112 * r - 94 * g - 18 * b) <= 128
  {
    LimitedRange(r, g, b);
    RoundedBy(112 * b - 74 * g - 38 * r, 128);
    RoundedBy(112 * r - 94 * g - 18 * b, 128);
  }

  // A sample of the U plane is 128 above how much bluer its block is than grey, one of
  // the V plane how much redder: in 1024ths of what the four pixels add up to, and
  // within one step.
  lemma ChromaMeans(f: Frame, w: int, h: int, i: int, j: int)
    requires IsFrame(f, w, h) && 0 <= i < h / 2 && 0 <= j < w / 2
    ensures var blue, green, red := BlockSum(f, w, h, i, j, 0), BlockSum(f, w, h, i, j, 1), BlockSum(f, w, h, i, j, 2);
            && -848 <= 1024 * (ULines(f, w, h)[i][j] - 128) - (112 * blue - 74 * green - 38 * red) <= 848
            && -848 <= 1024 * (VLines(f, w, h)[i][j] - 128) - (112 * red - 94 * green - 18 * blue) <= 848
  {
    var b := MeanIsRounded(f, w, h, i, j, 0);
    var g := MeanIsRounded(f, w, h, i, j, 1);
    var r := MeanIsRounded(f, w, h, i, j, 2);
    ChromaRounds(r, g, b);
  }

  lemma MeanIsRounded(f: Frame, w: int, h: int, i: int, j: int, c: int) returns (mean: int)
    requires IsFrame(f, w, h) && 0 <= i < h / 2 && 0 <= j < w / 2 && 0 <= c < 4
    ensures mean == BlockMean(f[2 * i], f[2 * i + 1], 2 * j, c) && 0 <= mean < 256
    ensures -1 <= 4 * mean - BlockSum(f, w, h, i, j, c) <= 2
  {
    mean := BlockMean(f[2 * i], f[2 * i + 1], 2 * j, c);
    QuarterRounds(BlockSum(f, w, h, i, j, c));
  }

  lemma QuarterRounds(sum: int)
    ensures -1 <= 4 * ((sum + 2) / 4) - sum <= 2
  {
  }

  lemma RoundedBy(v: int, zero: int)
    ensures -128 < 256 * ((v + 256 * zero + 128) / 256 - zero) - v <= 128
  {
  }

  // Where a sample is in a plane: row after row, nothing between them.
  lemma SampleAt(lines: seq<seq<byte>>, w: nat, n: nat, r: nat, x: nat)
    requires n <= |lines| && (forall k :: 0 <= k < |lines| ==> |lines[k]| == w) && r < n && x < w
    ensures 0 <= r * w + x < |Packed(lines, n)| && Packed(lines, n)[r * w + x] == lines[r][x]
  {
    PackedPiece(lines, w, n, r);
    PackedLength(lines, w, n);
    MulMonotone(r + 1, n, w);
    Distribute(r, 1, w);
    assert Packed(lines, n)[r * w + x] == Packed(lines, n)[r * w..r * w + w][x];
  }

  // One pass of the inner loop is for the block in block row i and block column j. It
  // stores four samples into the Y plane, number q (0 to 3) of them here, ...
  function YStore(w: int, i: int, j: int, q: int): int { (2 * i + q / 2) * w + (2 * j + q % 2) }

  // ... and one into each of the U and the V plane, both here.
  function CStore(w: int, i: int, j: int): int { i * (w / 2) + j }

  // The places reached from the start of a pair of rows.
  lemma StorePlaces(w: int, i: int, j: int)
    ensures YStore(w, i, j, 0) == YStore(w, i, 0, 0) + 2 * j
    ensures YStore(w, i, j, 1) == YStore(w, i, 0, 0) + 2 * j + 1
    ensures YStore(w, i, j, 2) == YStore(w, i, 0, 0) + w + 2 * j
    ensures YStore(w, i, j, 3) == YStore(w, i, 0, 0) + w + 2 * j + 1
    ensures CStore(w, i, j) == CStore(w, i, 0) + j
  {
    Distribute(2 * i, 1, w);
  }

  // The stores of all the blocks visit every byte of the Y plane, each once, ...
  lemma YStoredOnce(w: int, h: int, p: int)
    requires w > 0 && h > 0 && w % 2 == 0 && h % 2 == 0 && 0 <= p < h * w
    ensures var i, j, q := p / w / 2, p % w / 2, p / w % 2 * 2 + p % w % 2;
            && 0 <= i < h / 2 && 0 <= j < w / 2 && 0 <= q < 4 && YStore(w, i, j, q) == p
            && forall i', j', q' :: 0 <= i' < h / 2 && 0 <= j' < w / 2 && 0 <= q' < 4 && YStore(w, i', j', q') == p
                 ==> i' == i && j' == j && q' == q
  {
    var row, x := p / w, p % w;
    assert p == row * w + x;
    RowOf(p, w, h);
    forall i', j', q' | 0 <= i' < h / 2 && 0 <= j' < w / 2 && 0 <= q' < 4 && YStore(w, i', j', q') == p
      ensures i' == row / 2 && j' == x / 2 && q' == row % 2 * 2 + x % 2
    {
      SamePlace(w, row, x, 2 * i' + q' / 2, 2 * j' + q' % 2);
    }
  }

  // ... and every byte of the U plane and of the V plane, each once.
  lemma ChromaStoredOnce(w: int, h: int, p: int)
    requires w > 0 && h > 0 && w % 2 == 0 && h % 2 == 0 && 0 <= p < h / 2 * (w / 2)
    ensures var i, j := p / (w / 2), p % (w / 2);
            && 0 <= i < h / 2 && 0 <= j < w / 2 && CStore(w, i, j) == p
            && forall i', j' :: 0 <= i' < h / 2 && 0 <= j' < w / 2 && CStore(w, i', j') == p ==> i' == i && j' == j
  {
    var half := w / 2;
    var i, j := p / half, p % half;
    RowOf(p, half, h / 2);
    forall i', j' | 0 <= i' < h / 2 && 0 <= j' < half && CStore(w, i', j') == p
      ensures i' == i && j' == j
    {
      SamePlace(half, i, j, i', j');
    }
  }

  lemma RowOf(p: int, w: int, h: int)
    requires w > 0 && h > 0 && 0 <= p < h * w
    ensures 0 <= p / w < h
  {
    if p / w >= h {
      MulMonotone(h, p / w, w);
    }
  }

  lemma SamePlace(w: int, r: int, x: int, r': int, x': int)
    requires 0 <= x < w && 0 <= x' < w && r * w + x == r' * w + x'
    ensures r == r' && x == x'
  {
    if r < r' {
      MulMonotone(r + 1, r', w);
      Distribute(r, 1, w);
    } else if r' < r {
      MulMonotone(r' + 1, r, w);
      Distribute(r', 1, w);
    }
  }

  // The lines one pair of source rows becomes.
  datatype Lines = Lines(y0: seq<byte>, y1: seq<byte>, u: seq<byte>, v: seq<byte>) {
    ghost predicate From(top: seq<byte>, bottom: seq<byte>, w: int) {
      && w > 0 && w % 2 == 0 && |top| == |bottom| == 4 * w
      && |y0| == |y1| == w && |u| == |v| == w / 2
      && (forall x {:trigger Luma(top, x)} :: 0 <= x < w ==> y0[x] == Luma(top, x))
      && (forall x {:trigger Luma(bottom, x)} :: 0 <= x < w ==> y1[x] == Luma(bottom, x))
      && (forall j {:trigger ChromaU(top, bottom, 2 * j)} :: 0 <= j < w / 2 ==> u[j] == ChromaU(top, bottom, 2 * j))
      && (forall j {:trigger ChromaV(top, bottom, 2 * j)} :: 0 <= j < w / 2 ==> v[j] == ChromaV(top, bottom, 2 * j))
    }
  }

  function LinesOf(top: seq<byte>, bottom: seq<byte>, w: int): (lines: Lines)
    requires w > 0 && w % 2 == 0 && |top| == |bottom| == 4 * w
    ensures lines.From(top, bottom, w)
  {
    Lines(LumaRow(top, w), LumaRow(bottom, w), URow(top, bottom, w), VRow(top, bottom, w))
  }

  // The two luma samples of one row of a block: of pixels x and x+1.
  method LumaSamples(src: array<byte>, at: int, w: int, x: int, ghost row: seq<byte>) returns (left: byte, right: byte)
    requires 0 <= at && 0 <= w && at + 4 * w <= src.Length && src[at..at + 4 * w] == row
    requires 0 <= x && x + 2 <= w
    ensures left == Luma(row, x) && right == Luma(row, x + 1)
  {
    var a := at + 4 * x;
    BlockBytes(src[..], at, w, x, row);
    left, right := FdY(src[a + 2], src[a + 1], src[a]), FdY(src[a + 6], src[a + 5], src[a + 4]);
  }

  // Channel c of the whole block, averaged.
  method BlockChannel(src: array<byte>, s0: int, s1: int, w: int, x: int, c: int,
                      ghost top: seq<byte>, ghost bottom: seq<byte>)
    returns (mean: int)
    requires 0 <= s0 && 0 <= w && s0 + 4 * w <= src.Length && src[s0..s0 + 4 * w] == top
    requires 0 <= s1 && s1 + 4 * w <= src.Length && src[s1..s1 + 4 * w] == bottom
    requires 0 <= x && x + 2 <= w && 0 <= c < 3
    ensures mean == BlockMean(top, bottom, x, c)
  {
    var a, b := s0 + 4 * x, s1 + 4 * x;
    BlockBytes(src[..], s0, w, x, top);
    BlockBytes(src[..], s1, w, x, bottom);
    var p00: int, p01: int, p10: int, p11: int := src[a + c], src[a + 4 + c], src[b + c], src[b + 4 + c];
    mean := (p00 + p01 + p10 + p11 + 2) / 4;
  }

  lemma BlockOfLines(top: seq<byte>, bottom: seq<byte>, w: int, lines: Lines, j: int)
    requires lines.From(top, bottom, w) && 0 <= j < w / 2
    ensures lines.y0[2 * j] == Luma(top, 2 * j) && lines.y0[2 * j + 1] == Luma(top, 2 * j + 1)
    ensures lines.y1[2 * j] == Luma(bottom, 2 * j) && lines.y1[2 * j + 1] == Luma(bottom, 2 * j + 1)
    ensures lines.u[j] == ChromaU(top, bottom, 2 * j) && lines.v[j] == ChromaV(top, bottom, 2 * j)
  {
  }

  // The four luma and the two chroma samples of a block.
  method BlockSamples(src: array<byte>, s0: int, s1: int, w: int, x: int,
                      ghost top: seq<byte>, ghost bottom: seq<byte>, ghost lines: Lines, ghost j: int)
    returns (y00: byte, y01: byte, y10: byte, y11: byte, cu: byte, cv: byte)
    requires 0 <= s0 && 0 <= w && s0 + 4 * w <= src.Length && src[s0..s0 + 4 * w] == top
    requires 0 <= s1 && s1 + 4 * w <= src.Length && src[s1..s1 + 4 * w] == bottom
    requires lines.From(top, bottom, w) && 0 <= j < w / 2 && x == 2 * j
    ensures y00 == lines.y0[x] && y01 == lines.y0[x + 1] && y10 == lines.y1[x] && y11 == lines.y1[x + 1]
    ensures cu == lines.u[j] && cv == lines.v[j]
  {
    y00, y01 := LumaSamples(src, s0, w, x, top);
    y10, y11 := LumaSamples(src, s1, w, x, bottom);
    var bb := BlockChannel(src, s0, s1, w, x, 0, top, bottom);
    var gg := BlockChannel(src, s0, s1, w, x, 1, top, bottom);
    var rr := BlockChannel(src, s0, s1, w, x, 2, top, bottom);
    BlockOfLines(top, bottom, w, lines, j);
    cu, cv := FdU(rr, gg, bb), FdV(rr, gg, bb);
  }

  // The places are inside a plane of that many bytes.
  predicate InPlane(w: int, i: int, j: int, length: int)
  {
    forall q :: 0 <= q < 4 ==> 0 <= YStore(w, i, j, q) < length
  }

  // One pass of the inner loop: the four stores into Y, and one each into U and V.
  method StoreBlock(src: array<byte>, s0: int, s1: int, w: int, x: int, y: array<byte>, at: int,
                    u: array<byte>, v: array<byte>, c: int,
                    ghost top: seq<byte>, ghost bottom: seq<byte>, ghost lines: Lines, ghost i: int, ghost j: int)
    requires at == YStore(w, i, 0, 0) && c == CStore(w, i, j)
    requires 0 <= s0 && 0 <= w && s0 + 4 * w <= src.Length && src[s0..s0 + 4 * w] == top
    requires 0 <= s1 && s1 + 4 * w <= src.Length && src[s1..s1 + 4 * w] == bottom
    requires lines.From(top, bottom, w) && 0 <= j < w / 2 && x == 2 * j
    requires 0 <= at && at + 2 * w <= y.Length && 0 <= c < u.Length && c < v.Length
    requires src != y && src != u && src != v && y != u && y != v && u != v
    modifies y, u, v
    ensures InPlane(w, i, j, y.Length)
    ensures y[..] == old(y[..])[YStore(w, i, j, 0) := lines.y0[x]][YStore(w, i, j, 1) := lines.y0[x + 1]]
                                [YStore(w, i, j, 2) := lines.y1[x]][YStore(w, i, j, 3) := lines.y1[x + 1]]
    ensures u[..] == old(u[..])[CStore(w, i, j) := lines.u[j]]
    ensures v[..] == old(v[..])[CStore(w, i, j) := lines.v[j]]
  {
    StorePlaces(w, i, j);
    var y00, y01, y10, y11, cu, cv := BlockSamples(src, s0, s1, w, x, top, bottom, lines, j);
    y[at + x] := y00;
    y[at + x + 1] := y01;
    y[at + w + x] := y10;
    y[at + w + x + 1] := y11;
    u[c] := cu;
    v[c] := cv;
  }

  // From `was` to `now`, the first n samples of a line are stored from `at` on, and
  // nothing before it is changed.
  predicate OneLine(was: seq<byte>, now: seq<byte>, at: int, n: int, line: seq<byte>)
  {
    && |was| == |now| && 0 <= at && 0 <= n <= |line| && at + n <= |now|
    && now[..at] == was[..at] && now[at..at + n] == line[..n]
  }

  lemma OneLineGrows(was: seq<byte>, now: seq<byte>, next: seq<byte>, at: int, n: int, line: seq<byte>)
    requires OneLine(was, now, at, n, line) && n < |line| && at + n < |now| && next == now[at + n := line[n]]
    ensures OneLine(was, next, at, n + 1, line)
  {
    assert next[at..at + n + 1] == now[at..at + n] + [line[n]];
  }

  lemma OneLineAll(was: seq<byte>, now: seq<byte>, at: int, line: seq<byte>)
    requires OneLine(was, now, at, |line|, line)
    ensures now[..at + |line|] == was[..at] + line
  {
    assert now[..at + |line|] == now[..at] + now[at..at + |line|];
  }

  // The same of two lines of w samples, one after the other.
  predicate TwoLines(was: seq<byte>, now: seq<byte>, at: int, w: int, n: int, first: seq<byte>, second: seq<byte>)
  {
    && |first| == |second| == w && 0 <= at && at + 2 * w <= |now|
    && OneLine(was, now, at, n, first) && now[at + w..at + w + n] == second[..n]
  }

  lemma TwoLinesGrow(was: seq<byte>, now: seq<byte>, next: seq<byte>, at: int, w: int, n: int,
                     first: seq<byte>, second: seq<byte>)
    requires TwoLines(was, now, at, w, n, first, second) && n + 2 <= w
    requires next == now[at + n := first[n]][at + n + 1 := first[n + 1]]
                        [at + w + n := second[n]][at + w + n + 1 := second[n + 1]]
    ensures TwoLines(was, next, at, w, n + 2, first, second)
  {
    assert next[at..at + n + 2] == now[at..at + n] + [first[n], first[n + 1]];
    assert next[at + w..at + w + n + 2] == now[at + w..at + w + n] + [second[n], second[n + 1]];
  }

  lemma TwoLinesAll(was: seq<byte>, now: seq<byte>, at: int, w: int, first: seq<byte>, second: seq<byte>)
    requires TwoLines(was, now, at, w, w, first, second)
    ensures now[..at + 2 * w] == was[..at] + first + second
  {
    assert now[..at + 2 * w] == now[..at] + now[at..at + w] + now[at + w..at + w + w];
  }

  // The first j blocks of a pair of rows are stored, and nothing before them is changed.
  ghost predicate Stored(y0: seq<byte>, y: seq<byte>, u0: seq<byte>, u: seq<byte>, v0: seq<byte>, v: seq<byte>,
                         at: int, w: int, c0: int, j: int, lines: Lines)
  {
    && TwoLines(y0, y, at, w, 2 * j, lines.y0, lines.y1)
    && OneLine(u0, u, c0, j, lines.u) && OneLine(v0, v, c0, j, lines.v)
  }

  lemma NoneStored(y: seq<byte>, u: seq<byte>, v: seq<byte>, at: int, w: int, c0: int, lines: Lines)
    requires |lines.y0| == |lines.y1| == w && |lines.u| == |lines.v| == w / 2
    requires 0 <= at && at + 2 * w <= |y| && 0 <= c0 <= |u| && c0 <= |v|
    ensures Stored(y, y, u, u, v, v, at, w, c0, 0, lines)
  {
  }

  lemma NextStored(y0: seq<byte>, y: seq<byte>, y': seq<byte>, u0: seq<byte>, u: seq<byte>, u': seq<byte>,
                   v0: seq<byte>, v: seq<byte>, v': seq<byte>, at: int, w: int, c0: int, j: int, lines: Lines)
    requires Stored(y0, y, u0, u, v0, v, at, w, c0, j, lines)
    requires 2 * j + 2 <= w && j < |lines.u| && j < |lines.v| && c0 + j < |u| && c0 + j < |v|
    requires var x := 2 * j;
             y' == y[at + x := lines.y0[x]][at + x + 1 := lines.y0[x + 1]]
                    [at + w + x := lines.y1[x]][at + w + x + 1 := lines.y1[x + 1]]
    requires u' == u[c0 + j := lines.u[j]] && v' == v[c0 + j := lines.v[j]]
    ensures Stored(y0, y', u0, u', v0, v', at, w, c0, j + 1, lines)
  {
    TwoLinesGrow(y0, y, y', at, w, 2 * j, lines.y0, lines.y1);
    OneLineGrows(u0, u, u', c0, j, lines.u);
    OneLineGrows(v0, v, v', c0, j, lines.v);
  }

  // One pass of the inner loop takes the lines one block further.
  method StoreNext(src: array<byte>, s0: int, s1: int, w: int, x: int, y: array<byte>, at: int,
                   u: array<byte>, v: array<byte>, c: int,
                   ghost top: seq<byte>, ghost bottom: seq<byte>, ghost lines: Lines, ghost i: int, ghost j: int,
                   ghost c0: int, ghost y0: seq<byte>, ghost u0: seq<byte>, ghost v0: seq<byte>)
    requires at == YStore(w, i, 0, 0) && c0 == CStore(w, i, 0)
    requires 0 <= s0 && 0 <= w && s0 + 4 * w <= src.Length && src[s0..s0 + 4 * w] == top
    requires 0 <= s1 && s1 + 4 * w <= src.Length && src[s1..s1 + 4 * w] == bottom
    requires lines.From(top, bottom, w) && 0 <= j < w / 2 && x == 2 * j && c == c0 + j
    requires 0 <= at && at + 2 * w <= y.Length && 0 <= c < u.Length && c < v.Length
    requires src != y && src != u && src != v && y != u && y != v && u != v
    requires Stored(y0, y[..], u0, u[..], v0, v[..], at, w, c0, j, lines)
    modifies y, u, v
    ensures Stored(y0, y[..], u0, u[..], v0, v[..], at, w, c0, j + 1, lines)
  {
    ghost var y1, u1, v1 := y[..], u[..], v[..];
    StorePlaces(w, i, j);
    StoreBlock(src, s0, s1, w, x, y, at, u, v, c, top, bottom, lines, i, j);
    NextStored(y0, y1, y[..], u0, u1, u[..], v0, v1, v[..], at, w, c0, j, lines);
  }

  // The inner loop: one pair of source rows, at s0 and s1, into two lines of the Y
  // plane and one each of U and V.
  method StoreRows(src: array<byte>, s0: int, s1: int, w: int, y: array<byte>, at: int,
                   u: array<byte>, v: array<byte>, c0: int,
                   ghost top: seq<byte>, ghost bottom: seq<byte>, ghost lines: Lines, ghost i: int)
    requires lines.From(top, bottom, w) && at == YStore(w, i, 0, 0) && c0 == CStore(w, i, 0)
    requires 0 <= s0 && s0 + 4 * w <= src.Length && src[s0..s0 + 4 * w] == top
    requires 0 <= s1 && s1 + 4 * w <= src.Length && src[s1..s1 + 4 * w] == bottom
    requires 0 <= at && at + 2 * w <= y.Length
    requires 0 <= c0 && c0 + w / 2 <= u.Length && c0 + w / 2 <= v.Length
    requires src != y && src != u && src != v && y != u && y != v && u != v
    modifies y, u, v
    ensures Stored(old(y[..]), y[..], old(u[..]), u[..], old(v[..]), v[..], at, w, c0, w / 2, lines)
  {
    ghost var y0, u0, v0 := y[..], u[..], v[..];
    var x, c := 0, c0;
    ghost var j := 0;
    NoneStored(y0, u0, v0, at, w, c0, lines);
    while x < w
      invariant 0 <= x <= w && x == 2 * j && c == c0 + j
      invariant Stored(y0, y[..], u0, u[..], v0, v[..], at, w, c0, j, lines)
    {
      StoreNext(src, s0, s1, w, x, y, at, u, v, c, top, bottom, lines, i, j, c0, y0, u0, v0);
      x, c, j := x + 2, c + 1, j + 1;
    }
  }

  method ConvertRows(src: array<byte>, s0: int, s1: int, w: int, y: array<byte>, at: int,
                     u: array<byte>, v: array<byte>, c0: int,
                     ghost top: seq<byte>, ghost bottom: seq<byte>, ghost lines: Lines, ghost i: int)
    requires lines.From(top, bottom, w) && at == YStore(w, i, 0, 0) && c0 == CStore(w, i, 0)
    requires 0 <= s0 && s0 + 4 * w <= src.Length && src[s0..s0 + 4 * w] == top
    requires 0 <= s1 && s1 + 4 * w <= src.Length && src[s1..s1 + 4 * w] == bottom
    requires 0 <= at && at + 2 * w <= y.Length
    requires 0 <= c0 && c0 + w / 2 <= u.Length && c0 + w / 2 <= v.Length
    requires src != y && src != u && src != v && y != u && y != v && u != v
    modifies y, u, v
    ensures y[..at + 2 * w] == old(y[..at]) + lines.y0 + lines.y1
    ensures u[..c0 + w / 2] == old(u[..c0]) + lines.u
    ensures v[..c0 + w / 2] == old(v[..c0]) + lines.v
  {
    ghost var y0, u0, v0 := y[..], u[..], v[..];
    assert y0[..at] == y[..at] && u0[..c0] == u[..c0] && v0[..c0] == v[..c0];
    StoreRows(src, s0, s1, w, y, at, u, v, c0, top, bottom, lines, i);
    TwoLinesAll(y0, y[..], at, w, lines.y0, lines.y1);
    OneLineAll(u0, u[..], c0, lines.u);
    OneLineAll(v0, v[..], c0, lines.v);
    Beginning(y, at + 2 * w);
    Beginning(u, c0 + w / 2);
    Beginning(v, c0 + w / 2);
  }

  lemma Beginning(a: array<byte>, n: int)
    requires 0 <= n <= a.Length
    ensures a[..n] == a[..][..n]
  {
  }

  lemma BlockBytes(src: seq<byte>, at: int, w: int, x: int, row: seq<byte>)
    requires 0 <= at && 0 <= w && at + 4 * w <= |src| && src[at..at + 4 * w] == row
    requires 0 <= x && x + 2 <= w
    ensures var a := at + 4 * x;
            && src[a] == row[4 * x] && src[a + 1] == row[4 * x + 1] && src[a + 2] == row[4 * x + 2]
            && src[a + 4] == row[4 * x + 4] && src[a + 5] == row[4 * x + 5] && src[a + 6] == row[4 * x + 6]
  {
  }

  // The lines of the three planes that block row i becomes.
  ghost predicate PairFrom(f: Frame, w: int, h: int, i: int, ys: seq<seq<byte>>, us: seq<seq<byte>>, vs: seq<seq<byte>>)
    requires |f| == |ys| == h && |us| == |vs| == h / 2 && 0 <= i < h / 2
  {
    Lines(ys[2 * i], ys[2 * i + 1], us[i], vs[i]).From(f[2 * i], f[2 * i + 1], w)
  }

  ghost predicate ArePlanes(f: Frame, w: int, h: int, ys: seq<seq<byte>>, us: seq<seq<byte>>, vs: seq<seq<byte>>)
  {
    && |f| == |ys| == h && |us| == |vs| == h / 2 && h % 2 == 0 && w >= 0
    && (forall k :: 0 <= k < h ==> |ys[k]| == w)
    && (forall k :: 0 <= k < h / 2 ==> |us[k]| == |vs[k]| == w / 2)
    && forall i {:trigger PairFrom(f, w, h, i, ys, us, vs)} :: 0 <= i < h / 2 ==> PairFrom(f, w, h, i, ys, us, vs)
  }

  lemma PlanesOf(f: Frame, w: int, h: int)
    requires IsFrame(f, w, h) && w % 2 == 0 && h % 2 == 0
    ensures ArePlanes(f, w, h, YLines(f, w, h), ULines(f, w, h), VLines(f, w, h))
  {
    forall i | 0 <= i < h / 2
      ensures PairFrom(f, w, h, i, YLines(f, w, h), ULines(f, w, h), VLines(f, w, h))
    {
      assert LinesOf(f[2 * i], f[2 * i + 1], w).From(f[2 * i], f[2 * i + 1], w);
    }
  }

  // fd_bgra_to_i420, into planes as wide as the image. The last source row need
  // not be padded out to the stride.
  method BgraToI420(src: array<byte>, stride: int, w: int, h: int, y: array<byte>, u: array<byte>, v: array<byte>)
    requires Holds(src[..], stride, w, h) && w % 2 == 0 && h % 2 == 0
    requires y.Length == h * w && u.Length == h / 2 * (w / 2) && v.Length == h / 2 * (w / 2)
    requires src != y && src != u && src != v && y != u && y != v && u != v
    modifies y, u, v
    ensures var f := FrameIn(src[..], stride, w, h);
            && y[..] == Packed(YLines(f, w, h), h)
            && u[..] == Packed(ULines(f, w, h), h / 2)
            && v[..] == Packed(VLines(f, w, h), h / 2)
  {
    ghost var mem := src[..];
    ghost var f := FrameIn(mem, stride, w, h);
    ghost var ys, us, vs := YLines(f, w, h), ULines(f, w, h), VLines(f, w, h);
    PlanesOf(f, w, h);
    PackedLength(ys, w, h);
    PackedLength(us, w / 2, h / 2);
    PackedLength(vs, w / 2, h / 2);
    ConvertFrame(src, stride, w, h, y, u, v, mem, f, ys, us, vs);
  }

  // The loop over pairs of rows.
  method ConvertFrame(src: array<byte>, stride: int, w: int, h: int, y: array<byte>, u: array<byte>, v: array<byte>,
                      ghost mem: seq<byte>, ghost f: Frame,
                      ghost ys: seq<seq<byte>>, ghost us: seq<seq<byte>>, ghost vs: seq<seq<byte>>)
    requires src[..] == mem && Holds(mem, stride, w, h) && f == FrameIn(mem, stride, w, h)
    requires ArePlanes(f, w, h, ys, us, vs)
    requires y.Length == |Packed(ys, h)| && u.Length == |Packed(us, h / 2)| && v.Length == |Packed(vs, h / 2)|
    requires src != y && src != u && src != v && y != u && y != v && u != v
    modifies y, u, v
    ensures y[..] == Packed(ys, h) && u[..] == Packed(us, h / 2) && v[..] == Packed(vs, h / 2)
  {
    var i, at, c := 0, 0, 0;
    while i < h / 2
      invariant 0 <= i <= h / 2
      invariant at == |Packed(ys, 2 * i)| <= y.Length && y[..at] == Packed(ys, 2 * i)
      invariant c == |Packed(us, i)| == |Packed(vs, i)| <= u.Length && c <= v.Length
      invariant u[..c] == Packed(us, i) && v[..c] == Packed(vs, i)
      invariant src[..] == mem
    {
      PackedGrows(ys, w, 2 * i + 1, h);
      PackedGrows(us, w / 2, i, h / 2);
      PackedGrows(vs, w / 2, i, h / 2);
      ConvertPair(src, stride, w, h, y, at, u, v, c, i, mem, f, ys, us, vs);
      i, at, c := i + 1, at + 2 * w, c + w / 2;
    }
    assert y[..at] == y[..] && u[..c] == u[..] && v[..c] == v[..];
  }

  // The lines before block row i end where its first stores go.
  lemma PairStarts(ys: seq<seq<byte>>, us: seq<seq<byte>>, w: int, h: int, i: int)
    requires |ys| == h && |us| == h / 2 && w >= 0 && 0 <= i < h / 2
    requires forall k :: 0 <= k < h ==> |ys[k]| == w
    requires forall k :: 0 <= k < h / 2 ==> |us[k]| == w / 2
    ensures |Packed(ys, 2 * i)| == YStore(w, i, 0, 0) && |Packed(us, i)| == CStore(w, i, 0)
  {
    PackedLength(ys, w, 2 * i);
    PackedLength(us, w / 2, i);
  }

  method ConvertPair(src: array<byte>, stride: int, w: int, h: int, y: array<byte>, at: int,
                     u: array<byte>, v: array<byte>, c: int, i: int,
                     ghost mem: seq<byte>, ghost f: Frame,
                     ghost ys: seq<seq<byte>>, ghost us: seq<seq<byte>>, ghost vs: seq<seq<byte>>)
    requires src[..] == mem && Holds(mem, stride, w, h) && f == FrameIn(mem, stride, w, h)
    requires ArePlanes(f, w, h, ys, us, vs) && 0 <= i < h / 2
    requires at == |Packed(ys, 2 * i)| && c == |Packed(us, i)|
    requires 0 <= at && at + 2 * w <= y.Length && 0 <= c && c + w / 2 <= u.Length && c + w / 2 <= v.Length
    requires src != y && src != u && src != v && y != u && y != v && u != v
    modifies y, u, v
    ensures y[..at + 2 * w] == old(y[..at]) + ys[2 * i] + ys[2 * i + 1]
    ensures u[..c + w / 2] == old(u[..c]) + us[i]
    ensures v[..c + w / 2] == old(v[..c]) + vs[i]
  {
    assert PairFrom(f, w, h, i, ys, us, vs);
    PairStarts(ys, us, w, h, i);
    RowInside(mem, stride, w, h, 2 * i);
    RowInside(mem, stride, w, h, 2 * i + 1);
    Distribute(2 * i, 1, stride);
    var s0 := 2 * i * stride;
    assert f[2 * i] == mem[s0..s0 + 4 * w] && f[2 * i + 1] == mem[s0 + stride..s0 + stride + 4 * w];
    ConvertRows(src, s0, s0 + stride, w, y, at, u, v, c, f[2 * i], f[2 * i + 1],
                Lines(ys[2 * i], ys[2 * i + 1], us[i], vs[i]), i);
  }
}
