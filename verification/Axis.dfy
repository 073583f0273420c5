/** One axis of the area-averaging scaler (host-agent/internal/vpx/convert.c). */
module Axis {
  import opened Prelude

  // Both grids of pixels are laid over a line src*dst long, so that every edge is an
  // integer: source pixel p begins at p*dst, output pixel i at i*src.

  function First(src: int, dst: int, i: int): int
    requires dst > 0
  {
    i * src / dst
  }

  function Count(src: int, dst: int, i: int): int
    requires dst > 0
  {
    ((i + 1) * src - 1) / dst - First(src, dst, i) + 1
  }

  function Overlap(src: int, dst: int, i: int, k: int): int
    requires dst > 0
  {
    var a := (First(src, dst, i) + k) * dst;
    Min(a + dst, (i + 1) * src) - Max(a, i * src)
  }

  function Rounded(src: int, dst: int, i: int, k: int): int
    requires src > 0 && dst > 0
  {
    (Overlap(src, dst, i, k) * 256 + src / 2) / src
  }

  function Overlaps(src: int, dst: int, i: int, n: nat): seq<int>
    requires dst > 0
  {
    seq(n, k => Overlap(src, dst, i, k))
  }

  function RoundedTaps(src: int, dst: int, i: int, n: nat): seq<int>
    requires src > 0 && dst > 0
  {
    seq(n, k => Rounded(src, dst, i, k))
  }

  // The first of the largest entries.
  function Largest(w: seq<int>): (big: nat)
    requires w != []
    ensures big < |w|
    ensures forall k :: 0 <= k < |w| ==> w[k] <= w[big]
    ensures forall k :: 0 <= k < big ==> w[k] < w[big]
  {
    if |w| == 1 then 0
    else
      var b := Largest(w[..|w| - 1]);
      if w[|w| - 1] > w[b] then |w| - 1 else b
  }

  // What is stored for one output pixel: the rounded overlaps, with whatever
  // they miss 256 by folded into the largest, as an unsigned 16-bit value.
  function Corrected(w: seq<int>): seq<int>
    requires w != []
  {
    w[Largest(w) := U16(w[Largest(w)] + 256 - Sum(w))]
  }

  function Weights(src: int, dst: int, i: int): seq<int>
    requires src > 0 && dst > 0 && Count(src, dst, i) >= 1
  {
    Corrected(RoundedTaps(src, dst, i, Count(src, dst, i)))
  }

  lemma DivBounds(a: int, d: int)
    requires d > 0
    ensures a / d * d <= a < a / d * d + d
  {
  }

  lemma QuotientBelow(a: int, d: int, q: int)
    requires d > 0 && a < q * d
    ensures a / d < q
  {
    DivBounds(a, d);
    if a / d >= q {
      MulOrder(q, a / d, d);
    }
  }

  // Output pixel i touches at least one source pixel, all of them inside the
  // source; the first begins at or before its left edge, the last ends at or
  // after its right edge, and neither could be left out.
  lemma TapsInsideSource(src: int, dst: int, i: int)
    requires src > 0 && dst > 0 && 0 <= i < dst
    ensures 0 <= First(src, dst, i) && Count(src, dst, i) >= 1
    ensures First(src, dst, i) + Count(src, dst, i) <= src
    ensures First(src, dst, i) * dst <= i * src < First(src, dst, i) * dst + dst
    ensures var last := First(src, dst, i) + Count(src, dst, i) - 1;
            last * dst < (i + 1) * src <= last * dst + dst
  {
    var lo, hi := i * src, (i + 1) * src;
    Distribute(i, 1, src);
    MulMonotone(0, i, src);
    MulMonotone(i + 1, dst, src);
    TouchedPixels(lo, hi, src, dst);
  }

  // The source pixels an interval touches, the first and the last.
  lemma TouchedPixels(lo: int, hi: int, src: int, dst: int)
    requires dst > 0 && 0 <= lo < hi <= src * dst
    ensures 0 <= lo / dst <= (hi - 1) / dst < src
    ensures lo / dst * dst <= lo < lo / dst * dst + dst
    ensures (hi - 1) / dst * dst < hi <= (hi - 1) / dst * dst + dst
  {
    DivBounds(lo, dst);
    DivBounds(hi - 1, dst);
    QuotientNotBelow(lo, dst);
    QuotientBelow(hi - 1, dst, src);
    var last := (hi - 1) / dst;
    Distribute(last, 1, dst);
    QuotientBelow(lo, dst, last + 1);
  }

  lemma QuotientNotBelow(a: int, d: int)
    requires d > 0 && 0 <= a
    ensures 0 <= a / d
  {
    DivBounds(a, d);
    if a / d <= -1 {
      MulMonotone(a / d, -1, d);
    }
  }

  // A source pixel in range overlaps the output pixel by a positive amount, and
  // by all of itself unless it is the first or the last.
  lemma OneOverlap(src: int, dst: int, i: int, k: nat)
    requires src > 0 && dst > 0 && 0 <= i < dst && k < Count(src, dst, i)
    ensures var p := First(src, dst, i) + k;
            var lo, hi := i * src, (i + 1) * src;
            && Overlap(src, dst, i, k) == Min(p * dst + dst, hi) - (if k == 0 then lo else p * dst)
            && 0 < Overlap(src, dst, i, k) <= Min(src, dst)
            && (k < Count(src, dst, i) - 1 ==> p * dst + dst < hi)
            && (0 < k < Count(src, dst, i) - 1 ==> Overlap(src, dst, i, k) == dst)
  {
    PixelEdges(src, dst, i, k);
    Distribute(i, 1, src);
  }

  // Where the edges of a touched source pixel are: only the first may begin before the
  // output pixel does, and only the last may end after it.
  lemma PixelEdges(src: int, dst: int, i: int, k: nat)
    requires src > 0 && dst > 0 && 0 <= i < dst && k < Count(src, dst, i)
    ensures var left := (First(src, dst, i) + k) * dst;
            && left < (i + 1) * src && (if k == 0 then left <= i * src < left + dst else i * src < left)
            && (k < Count(src, dst, i) - 1 ==> left + dst < (i + 1) * src)
  {
    TapsInsideSource(src, dst, i);
    var first, last := First(src, dst, i), First(src, dst, i) + Count(src, dst, i) - 1;
    var p := first + k;
    MulOrder(p, last, dst);
    if k > 0 {
      MulOrder(first + 1, p, dst);
      Distribute(first, 1, dst);
    }
    if p < last {
      MulOrder(p + 1, last, dst);
      Distribute(p, 1, dst);
    }
  }

  // The first n overlaps tile the output pixel from its left edge up to where
  // source pixel first+n begins, or to the right edge.
  lemma {:induction false} OverlapsTile(src: int, dst: int, i: int, n: nat)
    requires src > 0 && dst > 0 && 0 <= i < dst && 0 < n <= Count(src, dst, i)
    ensures Sum(Overlaps(src, dst, i, n)) == Min((First(src, dst, i) + n) * dst, (i + 1) * src) - i * src
  {
    var p := First(src, dst, i) + n - 1;
    assert (p + 1) * dst == p * dst + dst;
    OneOverlap(src, dst, i, n - 1);
    var all := Overlaps(src, dst, i, n);
    assert all[..n - 1] == Overlaps(src, dst, i, n - 1);
    if n <= 1 {
    } else {
      OverlapsTile(src, dst, i, n - 1);
      OneOverlap(src, dst, i, n - 2);
      assert (p - 1) * dst + dst == p * dst;
    }
  }

  // The overlaps of one output pixel are positive and add up to exactly its length.
  lemma OverlapsSumToSource(src: int, dst: int, i: int)
    requires src > 0 && dst > 0 && 0 <= i < dst
    ensures Count(src, dst, i) >= 1
    ensures Sum(Overlaps(src, dst, i, Count(src, dst, i))) == src
    ensures forall k :: 0 <= k < Count(src, dst, i) ==> 0 < Overlap(src, dst, i, k) <= src
  {
    TapsInsideSource(src, dst, i);
    OverlapsTile(src, dst, i, Count(src, dst, i));
    assert (i + 1) * src == i * src + src;
    var last := First(src, dst, i) + Count(src, dst, i) - 1;
    assert (last + 1) * dst == last * dst + dst;
    forall k | 0 <= k < Count(src, dst, i)
      ensures 0 < Overlap(src, dst, i, k) <= src
    {
      OneOverlap(src, dst, i, k);
    }
  }

  // One rounding is off by at most half of 1/256.
  lemma RoundingError(src: int, o: int)
    requires src > 0 && 0 <= o <= src
    ensures var r := (o * 256 + src / 2) / src;
            0 <= r <= 256 && 2 * o * 256 - src < 2 * (r * src) <= 2 * o * 256 + src
  {
    var v := o * 256 + src / 2;
    DivBounds(v, src);
    var r := v / src;
    if r < 0 { MulOrder(r + 1, 0, src); }
    if r > 256 { MulOrder(257, r, src); }
  }

  // Rounded weights miss the true ones by at most half of 1/256 each.
  lemma {:induction false} RoundedSum(src: int, os: seq<int>, rs: seq<int>)
    requires |os| == |rs| && forall k :: 0 <= k < |rs| ==> 2 * (rs[k] * src) <= 512 * os[k] + src
    ensures 2 * (Sum(rs) * src) <= 512 * Sum(os) + |os| * src
  {
    if os == [] {
    } else {
      var n := |os| - 1;
      RoundedSum(src, os[..n], rs[..n]);
      Distribute(Sum(rs[..n]), rs[n], src);
      Distribute(n, 1, src);
    }
  }

  lemma {:induction false} InnerSum(rs: seq<int>, m: int)
    requires rs != [] && forall k :: 0 < k < |rs| ==> rs[k] == m
    ensures Sum(rs) == rs[0] + (|rs| - 1) * m
  {
    var n := |rs| - 1;
    if n == 0 {
      assert rs[..0] == [];
    } else {
      InnerSum(rs[..n], m);
      Distribute(n - 1, 1, m);
    }
  }

  // All the facts about one output pixel's rounded taps that the correction needs.
  lemma RoundedFacts(src: int, dst: int, i: int)
    requires src > 0 && dst > 0 && 0 <= i < dst
    ensures var n := Count(src, dst, i);
            && n >= 1
            && var rs := RoundedTaps(src, dst, i, n);
               && (forall k :: 0 <= k < n ==> 0 <= rs[k] <= 256)
               && 2 * (Sum(rs) * src) <= 512 * src + n * src
  {
    var n := Count(src, dst, i);
    OverlapsSumToSource(src, dst, i);
    var os, rs := Overlaps(src, dst, i, n), RoundedTaps(src, dst, i, n);
    forall k | 0 <= k < n
      ensures 0 <= rs[k] <= 256 && 2 * (rs[k] * src) <= 512 * os[k] + src
    {
      RoundingError(src, os[k]);
    }
    RoundedSum(src, os, rs);
  }

  // With at least one inner tap: the overlaps and roundings of the inner taps are
  // all the same.
  lemma InnerTapsEqual(src: int, dst: int, i: int)
    requires src > 0 && dst > 0 && 0 <= i < dst && Count(src, dst, i) >= 3
    ensures var n := Count(src, dst, i);
            var os, rs := Overlaps(src, dst, i, n), RoundedTaps(src, dst, i, n);
            && os[1] == dst
            && Sum(os) == os[0] + (n - 2) * dst + os[n - 1] == src
            && Sum(rs) == rs[0] + (n - 2) * rs[1] + rs[n - 1]
            && 0 < os[0] <= dst && 0 < os[n - 1] <= dst
  {
    var n := Count(src, dst, i);
    var os, rs := Overlaps(src, dst, i, n), RoundedTaps(src, dst, i, n);
    OneOverlap(src, dst, i, 0);
    OneOverlap(src, dst, i, 1);
    OneOverlap(src, dst, i, n - 1);
    forall k | 0 < k < n - 1
      ensures os[k] == dst && rs[k] == rs[1]
    {
      OneOverlap(src, dst, i, k);
    }
    InnerSum(rs[..n - 1], rs[1]);
    InnerSum(os[..n - 1], dst);
    OverlapsSumToSource(src, dst, i);
  }

  // The inner weight m, how far it can be from 256*dst/src, and the sum of the
  // weights in terms of it.
  lemma InnerFacts(src: int, dst: int, i: int)
    requires src > 0 && dst > 0 && 0 <= i < dst && Count(src, dst, i) >= 3
    ensures var n := Count(src, dst, i);
            var rs := RoundedTaps(src, dst, i, n);
            var m := rs[1];
            && Sum(rs) == rs[0] + (n - 2) * m + rs[n - 1]
            && 512 * dst - src < 2 * (m * src) <= 512 * dst + src
            && 2 * (rs[0] * src) + 2 * (rs[n - 1] * src) <= 512 * (src - (n - 2) * dst) + 2 * src
            && (n - 2) * dst < src
  {
    InnerTapsEqual(src, dst, i);
    OverlapsSumToSource(src, dst, i);
    var n := Count(src, dst, i);
    var os := Overlaps(src, dst, i, n);
    RoundingError(src, os[0]);
    RoundingError(src, os[1]);
    RoundingError(src, os[n - 1]);
  }

  // What rounding the n-2 inner weights up can add in all is less than one of them.
  lemma InnerExcess(src: int, dst: int, n: int, m: int)
    requires src > 0 && dst > 0 && n >= 3 && src <= 24 * dst
    requires (n - 2) * dst < src
    requires 512 * dst - src < 2 * (m * src) <= 512 * dst + src
    ensures 2 * (m * src) > (2 * (m * src) - 512 * dst) * (n - 2)
  {
    var excess := 2 * (m * src) - 512 * dst;
    if n >= 26 {
      MulMonotone(24, n - 2, dst);
    }
    if m <= 10 {
      MulMonotone(m, 10, src);
    }
    if excess <= 0 {
      MulMonotone(excess, 0, n - 2);
    } else if m == 11 {
      MulMonotone(n - 2, 23, excess);
    } else {
      MulMonotone(12, m, src);
      if n == 25 {
        TwelveNeedsFewer(src, dst, m);
      }
      MulMonotone(n - 2, 22, excess);
    }
  }

  // An inner weight of 12 or more means an output pixel narrower than 23 source pixels.
  lemma TwelveNeedsFewer(src: int, dst: int, m: int)
    requires src > 0 && dst > 0 && m >= 12 && 2 * (m * src) <= 512 * dst + src
    ensures src < 23 * dst
  {
    MulMonotone(12, m, src);
  }

  lemma SumOfTwo(rs: seq<int>)
    requires 1 <= |rs| <= 2
    ensures Sum(rs) == rs[0] + if |rs| == 2 then rs[1] else 0
  {
    assert rs[..0] == [];
    if |rs| == 2 {
      assert rs[..1][..0] == [];
    }
  }

  // The arithmetic of the bound of 24, with the products named.
  lemma NotBelowMinusOne(src: int, n: int, m: int, dst: int, most: int, first: int, last: int, total: int)
    requires src > 0 && most >= m
    requires total == first + (n - 2) * m + last
    requires 2 * (first * src) + 2 * (last * src) <= 512 * (src - (n - 2) * dst) + 2 * src
    requires 2 * (m * src) > (2 * (m * src) - 512 * dst) * (n - 2)
    ensures most + 256 - total >= 0
  {
    var corrected := most + 256 - total;
    Distribute(first, last, src);
    Distribute(first + last, (n - 2) * m, src);
    assert (n - 2) * m * src == (m * src) * (n - 2);
    Distribute(corrected, total, src);
    Distribute(most, 256, src);
    MulMonotone(m, most, src);
    Distribute(2 * (m * src), - 512 * dst, n - 2);
    assert 512 * dst * (n - 2) == 512 * ((n - 2) * dst);
    if corrected <= -1 {
      MulMonotone(corrected, -1, src);
    }
  }

  // What the source promises of one output pixel's weights.
  ghost predicate WellWeighed(src: int, dst: int, i: int)
    requires src > 0 && dst > 0 && Count(src, dst, i) >= 1
  {
    && Sum(Weights(src, dst, i)) == 256
    && forall k :: 0 <= k < Count(src, dst, i) ==> 0 <= Weights(src, dst, i)[k] <= 256
  }

  // What is left to the largest weight, once the others are taken from 256.
  function Correction(src: int, dst: int, i: int): int
    requires src > 0 && dst > 0 && Count(src, dst, i) >= 1
  {
    var rs := RoundedTaps(src, dst, i, Count(src, dst, i));
    rs[Largest(rs)] + 256 - Sum(rs)
  }

  // The promise is kept exactly if that is not negative.
  lemma WellWeighedIffNotNegative(src: int, dst: int, i: int)
    requires src > 0 && dst > 0 && 0 <= i < dst
    ensures Count(src, dst, i) >= 1
    ensures WellWeighed(src, dst, i) <==> Correction(src, dst, i) >= 0
  {
    RoundedFacts(src, dst, i);
    var rs := RoundedTaps(src, dst, i, Count(src, dst, i));
    var big := Largest(rs);
    TermWithinSum(rs, big);
    SumOfUpdate(rs, big, U16(rs[big] + 256 - Sum(rs)));
  }

  // A wider overlap is not rounded to a smaller weight.
  lemma RoundingRises(src: int, o: int, p: int)
    requires src > 0 && o <= p
    ensures (o * 256 + src / 2) / src <= (p * 256 + src / 2) / src
  {
    var v, w := o * 256 + src / 2, p * 256 + src / 2;
    DivBounds(v, src);
    DivBounds(w, src);
    if v / src > w / src {
      MulMonotone(w / src + 1, v / src, src);
      Distribute(w / src, 1, src);
    }
  }

  // With an inner tap, the largest weight is an inner one, so what is left to it is
  // what the two outer taps and the other inner ones leave.
  lemma CorrectionWithInnerTaps(src: int, dst: int, i: int)
    requires src > 0 && dst > 0 && 0 <= i < dst && Count(src, dst, i) >= 3
    ensures Correction(src, dst, i) == 256 - AllButOne(src, dst, i)
  {
    InnerIsLargest(src, dst, i);
    InnerTapsEqual(src, dst, i);
    Distribute(Count(src, dst, i) - 3, 1, Rounded(src, dst, i, 1));
  }

  // What the taps but one inner one weigh, as rounded.
  function AllButOne(src: int, dst: int, i: int): int
    requires src > 0 && dst > 0
  {
    var n := Count(src, dst, i);
    Rounded(src, dst, i, 0) + (n - 3) * Rounded(src, dst, i, 1) + Rounded(src, dst, i, n - 1)
  }

  lemma InnerIsLargest(src: int, dst: int, i: int)
    requires src > 0 && dst > 0 && 0 <= i < dst && Count(src, dst, i) >= 3
    ensures var rs := RoundedTaps(src, dst, i, Count(src, dst, i)); rs[Largest(rs)] == rs[1]
  {
    var rs := RoundedTaps(src, dst, i, Count(src, dst, i));
    OneOverlap(src, dst, i, 1);
    forall k | 0 <= k < |rs|
      ensures rs[k] <= rs[1]
    {
      OneOverlap(src, dst, i, k);
      RoundingRises(src, Overlap(src, dst, i, k), dst);
    }
  }

  // One tap or two never miss 256 by more than the larger weighs.
  lemma CorrectionOfFewTaps(src: int, dst: int, i: int)
    requires src > 0 && dst > 0 && 0 <= i < dst && Count(src, dst, i) <= 2
    ensures Count(src, dst, i) >= 1 && Correction(src, dst, i) >= 0
  {
    RoundedFacts(src, dst, i);
    var rs := RoundedTaps(src, dst, i, Count(src, dst, i));
    SumOfTwo(rs);
    if Sum(rs) > 257 {
      MulMonotone(258, Sum(rs), src);
      MulMonotone(|rs|, 2, src);
    }
  }

  // Whether those leave it a weight that is not negative.
  predicate LeavesEnough(src: int, dst: int, i: int)
    requires src > 0 && dst > 0
  {
    Count(src, dst, i) <= 2 || AllButOne(src, dst, i) <= 256
  }

  // Every size: the weights of an output pixel are in 0..256 and sum to exactly 256 if
  // and only if it has at most two taps, or its taps but one inner one, as rounded,
  // weigh no more than 256.
  lemma WellWeighedIff(src: int, dst: int, i: int)
    requires src > 0 && dst > 0 && 0 <= i < dst
    ensures Count(src, dst, i) >= 1
    ensures WellWeighed(src, dst, i) <==> LeavesEnough(src, dst, i)
  {
    WellWeighedIffNotNegative(src, dst, i);
    if Count(src, dst, i) >= 3 {
      CorrectionWithInnerTaps(src, dst, i);
    } else {
      CorrectionOfFewTaps(src, dst, i);
    }
  }

  // The taps leave enough while one output pixel covers no more than 24 source pixels.
  lemma RatioOf24LeavesEnough(src: int, dst: int, i: int)
    requires src > 0 && dst > 0 && 0 <= i < dst && src <= 24 * dst
    ensures LeavesEnough(src, dst, i)
  {
    var n := Count(src, dst, i);
    if n >= 3 {
      RoundedFacts(src, dst, i);
      InnerFacts(src, dst, i);
      CorrectionWithInnerTaps(src, dst, i);
      var rs := RoundedTaps(src, dst, i, n);
      InnerExcess(src, dst, n, rs[1]);
      NotBelowMinusOne(src, n, rs[1], dst, rs[Largest(rs)], rs[0], rs[n - 1], Sum(rs));
    }
  }

  // So every weight of every output pixel is between 0 and 256, and they sum to
  // exactly 256, whenever the source is at most 24 times the destination.
  lemma WeightsSumTo256(src: int, dst: int, i: int)
    requires src > 0 && dst > 0 && 0 <= i < dst && src <= 24 * dst
    ensures Count(src, dst, i) >= 1
    ensures Sum(Weights(src, dst, i)) == 256
    ensures forall k :: 0 <= k < Count(src, dst, i) ==> 0 <= Weights(src, dst, i)[k] <= 256
  {
    RatioOf24LeavesEnough(src, dst, i);
    WellWeighedIff(src, dst, i);
  }

  // The same, in terms of the number of taps.
  lemma WeightsSumTo256UpTo24Taps(src: int, dst: int, i: int)
    requires src > 0 && dst > 0 && 0 <= i < dst && Count(src, dst, i) <= 24
    ensures Count(src, dst, i) >= 1
    ensures Sum(Weights(src, dst, i)) == 256
    ensures forall k :: 0 <= k < Count(src, dst, i) ==> 0 <= Weights(src, dst, i)[k] <= 256
  {
    FewTapsNarrow(src, dst, i);
    MulMonotone(Count(src, dst, i), 24, dst);
    WeightsSumTo256(src, dst, i);
  }

  // n taps cover at most n source pixels.
  lemma FewTapsNarrow(src: int, dst: int, i: int)
    requires src > 0 && dst > 0 && 0 <= i < dst
    ensures src <= Count(src, dst, i) * dst
  {
    TapsInsideSource(src, dst, i);
    var first, n := First(src, dst, i), Count(src, dst, i);
    assert (i + 1) * src == i * src + src;
    assert (first + n - 1) * dst + dst == first * dst + n * dst;
  }

  // Above that the correction can go below zero: 73 source pixels onto 3 give the
  // first output pixel 25 taps, 24 of weight 11 and one of 4, and the correction
  // to -1 is stored as 65535.
  lemma CorrectionCanWrap()
    ensures Count(73, 3, 0) == 25 && Weights(73, 3, 0)[0] == 65535
  {
    assert First(73, 3, 0) == 0 && Count(73, 3, 0) == 25;
    var rs := RoundedTaps(73, 3, 0, 25);
    forall k | 0 <= k < 25
      ensures rs[k] == if k < 24 then 11 else 4
    {
      assert Overlap(73, 3, 0, k) == if k < 24 then 3 else 1;
    }
    InnerSum(rs[..24], 11);
    assert rs == rs[..24] + [4];
    assert Sum(rs) == 268 && Largest(rs) == 0;
  }

  // ... and at 512 to 1 every tap rounds to one: each of the 512 weighs 1, their
  // sum is 512, and the first becomes -255, stored as 65281.
  lemma CorrectionWrapsAt512(dst: int, i: int)
    requires dst > 0 && 0 <= i < dst
    ensures Count(512 * dst, dst, i) == 512 && Weights(512 * dst, dst, i)[0] == 65281
  {
    var src := 512 * dst;
    WholeTaps(dst, i);
    var rs := RoundedTaps(src, dst, i, 512);
    ExactQuotient(1, src, (dst * 256 + src / 2) / src);
    InnerSum(rs, 1);
    assert Largest(rs) == 0;
  }

  // At 512 to 1 the source pixels line up with the edges of the output pixels.
  lemma WholeTaps(dst: int, i: int)
    requires dst > 0 && 0 <= i < dst
    ensures Count(512 * dst, dst, i) == 512
    ensures forall k :: 0 <= k < 512 ==> Overlap(512 * dst, dst, i, k) == dst
  {
    var src := 512 * dst;
    assert i * src == (i * 512) * dst && (i + 1) * src == (i * 512 + 512) * dst;
    TapsInsideSource(src, dst, i);
    var first, n := First(src, dst, i), Count(src, dst, i);
    ExactQuotient(i * 512, dst, first);
    Distribute(i * 512 + 511, 1, dst);
    LastQuotient(i * 512 + 511, dst, first + n - 1);
    forall k | 0 <= k < 512
      ensures Overlap(src, dst, i, k) == dst
    {
      Distribute(first + k, 1, dst);
      MulOrder(first + k + 1, first + 512, dst);
      MulOrder(first, first + k, dst);
    }
  }

  lemma LastQuotient(q: int, d: int, r: int)
    requires d > 0 && r * d < q * d + d <= r * d + d
    ensures r == q
  {
    Distribute(q, 1, d);
    Distribute(r, 1, d);
    MulOrder(q, r, d);
    if r > q {
      MulOrder(q + 1, r, d);
    }
  }

  lemma ExactQuotient(q: int, d: int, r: int)
    requires d > 0 && r * d <= q * d < r * d + d
    ensures r == q
  {
    MulOrder(r, q, d);
    Distribute(r, 1, d);
    if q >= r + 1 {
      MulOrder(r + 1, q, d);
    }
  }

  // One row of the weight table: the taps of output pixel i, and weight 0 in the
  // places it does not need.
  function Row(src: int, dst: int, i: int, taps: int): seq<int>
    requires src > 0 && dst > 0 && 1 <= Count(src, dst, i) <= taps
  {
    Weights(src, dst, i) + Zeros(taps - Count(src, dst, i))
  }

  ghost predicate HasRow(weight: seq<int>, taps: int, i: int, row: seq<int>)
  {
    && 0 <= i * taps <= i * taps + taps <= |weight|
    && weight[i * taps..i * taps + taps] == row
  }

  // The first n rows of the two tables, as far as they have been filled.
  ghost predicate RowsDone(src: int, dst: int, taps: int, weight: seq<int>, first: seq<int>, n: int)
    requires src > 0 && dst > 0 && taps >= 1 && 0 <= n <= dst
    requires forall i :: 0 <= i < dst ==> 1 <= Count(src, dst, i) <= taps
  {
    && |weight| == n * taps && |first| == n
    && (forall i :: 0 <= i < n ==> first[i] == First(src, dst, i))
    && (forall i :: 0 <= i < n ==> HasRow(weight, taps, i, Row(src, dst, i, taps)))
  }

  // The tables describe the axis from src to dst pixels, with no more taps than
  // some output pixel needs.
  ghost predicate IsAxis(src: int, dst: int, taps: int, first: seq<int>, weight: seq<int>)
  {
    && src > 0 && dst > 0 && taps >= 1
    && (forall i :: 0 <= i < dst ==> 1 <= Count(src, dst, i) <= taps)
    && (taps == 1 || exists i :: 0 <= i < dst && Count(src, dst, i) == taps)
    && RowsDone(src, dst, taps, weight, first, dst)
  }

  lemma TapsInRange(src: int, dst: int, i: int) returns (all: seq<int>)
    requires src > 0 && dst > 0 && 0 <= i < dst
    ensures |all| == Count(src, dst, i) >= 1 && AreTaps(src, dst, i, all)
    ensures Weights(src, dst, i) == Corrected(all)
  {
    RoundedFacts(src, dst, i);
    all := RoundedTaps(src, dst, i, Count(src, dst, i));
  }

  lemma LargestIsUnique(w: seq<int>, big: nat)
    requires Leads(w, |w|, big)
    ensures big == Largest(w)
  {
  }

  // big is the first place of the largest of the first n.
  ghost predicate Leads(w: seq<int>, n: int, big: int)
  {
    && 0 <= big < n <= |w|
    && (forall k :: 0 <= k < n ==> w[k] <= w[big])
    && (forall k :: 0 <= k < big ==> w[k] < w[big])
  }

  lemma LeadsNext(w: seq<int>, n: nat, big: int)
    requires n < |w| && (n > 0 ==> Leads(w, n, big))
    ensures n == 0 ==> Leads(w, 1, 0)
    ensures n > 0 ==> Leads(w, n + 1, if w[n] > w[big] then n else big)
  {
  }

  // all holds the rounded overlaps of output pixel i.
  ghost predicate AreTaps(src: int, dst: int, i: int, all: seq<int>)
    requires src > 0 && dst > 0
  {
    && all != []
    && (forall k :: 0 <= k < |all| ==> 0 <= all[k] <= 256)
    && forall k {:trigger Rounded(src, dst, i, k)} :: 0 <= k < |all| ==> all[k] == Rounded(src, dst, i, k)
  }

  method OneTap(src: int, dst: int, i: int, k: int, ghost all: seq<int>) returns (wk: int)
    requires src > 0 && dst > 0 && AreTaps(src, dst, i, all) && 0 <= k < |all|
    ensures wk == all[k]
  {
    wk := Rounded(src, dst, i, k);
  }

  // The first pass over a row: the taps as rounded, their sum, and the first largest.
  method StoreTaps(src: int, dst: int, i: int, count: int, weight: array<int>, base: int, ghost all: seq<int>)
    returns (sum: int, big: int)
    requires src > 0 && dst > 0 && count == |all| && AreTaps(src, dst, i, all)
    requires 0 <= base <= base + count <= weight.Length
    modifies weight
    ensures sum == Sum(all) && 0 <= big < count && big == Largest(all)
    ensures forall j :: base <= j < base + count ==> weight[j] == all[j - base]
    ensures forall j :: 0 <= j < weight.Length && !(base <= j < base + count) ==> weight[j] == old(weight[j])
  {
    sum, big := 0, 0;
    var k := 0;
    while k < count
      invariant 0 <= k <= count && (if k == 0 then big == 0 else Leads(all, k, big))
      invariant forall j :: base <= j < base + k ==> weight[j] == all[j - base]
      invariant forall j :: 0 <= j < weight.Length && !(base <= j < base + k) ==> weight[j] == old(weight[j])
      invariant sum == Sum(all[..k])
    {
      var wk := OneTap(src, dst, i, k, all);
      weight[base + k] := U16(wk);
      sum := sum + wk;
      assert all[..k + 1][..k] == all[..k];
      LeadsNext(all, k, big);
      if wk > weight[base + big] {
        big := k;
      }
      k := k + 1;
    }
    assert all[..count] == all;
    LargestIsUnique(all, big);
  }

  // Fills one row of the weight table, which begins at base and holds zeros, with
  // the taps of output pixel i (whose rounded overlaps are all).
  method FillRow(src: int, dst: int, i: int, count: int, weight: array<int>, base: int, ghost all: seq<int>)
    requires src > 0 && dst > 0 && count == |all| && AreTaps(src, dst, i, all)
    requires 0 <= base <= base + count <= weight.Length
    modifies weight
    ensures forall j :: base <= j < base + count ==> weight[j] == Corrected(all)[j - base]
    ensures forall j :: 0 <= j < weight.Length && !(base <= j < base + count) ==> weight[j] == old(weight[j])
  {
    var sum, big := StoreTaps(src, dst, i, count, weight, base, all);
    weight[base + big] := U16(weight[base + big] + 256 - sum);
  }

  // The same, for a table that holds the rows done so far and zeros after them.
  method AppendRow(src: int, dst: int, i: int, taps: int, weight: array<int>, ghost done: seq<int>, ghost all: seq<int>,
                   base: int, count: int)
    requires src > 0 && dst > 0 && count == |all| <= taps && AreTaps(src, dst, i, all)
    requires base == |done| && base + taps <= weight.Length
    requires weight[..] == done + Zeros(weight.Length - base)
    modifies weight
    ensures weight[..] == done + (Corrected(all) + Zeros(taps - count)) + Zeros(weight.Length - base - taps)
  {
    FillRow(src, dst, i, count, weight, base, all);
  }

  // The most taps any output pixel needs.
  method MostTaps(src: int, dst: int) returns (taps: int)
    requires src > 0 && dst > 0
    ensures taps >= 1 && forall j :: 0 <= j < dst ==> 1 <= Count(src, dst, j) <= taps
    ensures taps == 1 || exists j :: 0 <= j < dst && Count(src, dst, j) == taps
  {
    taps := 1;
    var i := 0;
    while i < dst
      invariant 0 <= i <= dst && taps >= 1
      invariant forall j :: 0 <= j < i ==> 1 <= Count(src, dst, j) <= taps
      invariant taps == 1 || exists j :: 0 <= j < i && Count(src, dst, j) == taps
    {
      var count := Count(src, dst, i);
      TapsInsideSource(src, dst, i);
      if count > taps {
        taps := count;
      }
      i := i + 1;
    }
  }

  // host-agent/internal/vpx/convert.c's build_axis.
  method BuildAxis(src: int, dst: int) returns (ok: bool, taps: int, first: array<int>, weight: array<int>)
    ensures ok <==> src > 0 && dst > 0
    ensures ok ==> fresh(first) && fresh(weight) && IsAxis(src, dst, taps, first[..], weight[..])
  {
    taps, first, weight := 1, new int[0], new int[0];
    if src <= 0 || dst <= 0 {
      return false, taps, first, weight;
    }
    taps := MostTaps(src, dst);
    MulMonotone(0, dst, taps);
    first, weight := new int[dst](_ => 0), new int[dst * taps](_ => 0);
    FillTables(src, dst, taps, first, weight);
    ok := true;
  }

  // The loop of build_axis that fills the tables, zero to begin with.
  method FillTables(src: int, dst: int, taps: int, first: array<int>, weight: array<int>)
    requires src > 0 && dst > 0 && taps >= 1 && first != weight
    requires forall j :: 0 <= j < dst ==> 1 <= Count(src, dst, j) <= taps
    requires first.Length == dst && weight.Length == dst * taps && weight[..] == Zeros(weight.Length)
    modifies first, weight
    ensures RowsDone(src, dst, taps, weight[..], first[..], dst)
  {
    var i, base := 0, 0;
    ghost var done := [];
    while i < dst
      invariant 0 <= i <= dst && base == i * taps == |done| && base <= weight.Length
      invariant RowsDone(src, dst, taps, done, first[..i], i)
      invariant weight[..] == done + Zeros(weight.Length - base)
    {
      Distribute(i, 1, taps);
      MulOrder(i + 1, dst, taps);
      ghost var all, row := OneRowMore(src, dst, taps, done, first[..i], i);
      AppendRow(src, dst, i, taps, weight, done, all, base, Count(src, dst, i));
      first[i] := First(src, dst, i);
      assert first[..i + 1] == first[..i] + [First(src, dst, i)];
      done := done + row;
      i, base := i + 1, base + taps;
    }
    assert first[..i] == first[..];
    assert weight[..] == done;
  }

  lemma OneRowMore(src: int, dst: int, taps: int, weight: seq<int>, first: seq<int>, n: int)
    returns (all: seq<int>, row: seq<int>)
    requires src > 0 && dst > 0 && taps >= 1 && 0 <= n < dst
    requires forall i :: 0 <= i < dst ==> 1 <= Count(src, dst, i) <= taps
    requires RowsDone(src, dst, taps, weight, first, n)
    ensures |all| == Count(src, dst, n) && AreTaps(src, dst, n, all)
    ensures row == Corrected(all) + Zeros(taps - |all|)
    ensures RowsDone(src, dst, taps, weight + row, first + [First(src, dst, n)], n + 1)
  {
    all := TapsInRange(src, dst, n);
    row := Row(src, dst, n, taps);
    var more := weight + row;
    Distribute(n, 1, taps);
    forall i | 0 <= i < n + 1
      ensures HasRow(more, taps, i, Row(src, dst, i, taps))
    {
      if i < n {
        assert HasRow(weight, taps, i, Row(src, dst, i, taps));
      }
    }
  }
}
