/** Weighted sums: plain, wrapped to a word, and over a two-dimensional patch. */
module Weighted {
  import opened Prelude

  // The sum of a[j]*w[j] over the first k places.
  function Dot(a: seq<int>, w: seq<int>, k: nat): int
    requires k <= |a| == |w|
  {
    if k == 0 then 0 else Dot(a, w, k - 1) + a[k - 1] * w[k - 1]
  }

  // The same accumulated in an unsigned word of modulus m.
  function WrapDot(a: seq<int>, w: seq<int>, k: nat, m: int): int
    requires k <= |a| == |w| && m > 0
  {
    if k == 0 then 0 else (WrapDot(a, w, k - 1, m) + a[k - 1] * w[k - 1]) % m
  }

  ghost predicate Within(a: seq<int>, lo: int, hi: int)
  {
    forall j :: 0 <= j < |a| ==> lo <= a[j] <= hi
  }

  lemma {:induction false} PrefixWithinSum(w: seq<int>, k: nat)
    requires k <= |w| && forall j :: 0 <= j < |w| ==> w[j] >= 0
    ensures 0 <= Sum(w[..k]) <= Sum(w)
  {
    assert w == w[..k] + w[k..];
    SumOfTwoParts(w[..k], w[k..]);
    SumNotNegative(w[..k]);
    SumNotNegative(w[k..]);
  }

  // A weighted sum of values between lo and hi is between lo and hi times the weights.
  lemma {:induction false} DotBetween(a: seq<int>, w: seq<int>, k: nat, lo: int, hi: int)
    requires k <= |a| == |w| && Within(a, lo, hi)
    requires forall j :: 0 <= j < |w| ==> w[j] >= 0
    ensures lo * Sum(w[..k]) <= Dot(a, w, k) <= hi * Sum(w[..k])
  {
    if k == 0 {
    } else {
      DotBetween(a, w, k - 1, lo, hi);
      assert w[..k][..k - 1] == w[..k - 1];
      MulMonotone(lo, a[k - 1], w[k - 1]);
      MulMonotone(a[k - 1], hi, w[k - 1]);
      Distribute(Sum(w[..k - 1]), w[k - 1], lo);
      Distribute(Sum(w[..k - 1]), w[k - 1], hi);
    }
  }

  lemma DotWithin(a: seq<int>, w: seq<int>, k: nat, hi: int)
    requires k <= |a| == |w| && Within(a, 0, hi) && hi >= 0
    requires forall j :: 0 <= j < |w| ==> w[j] >= 0
    ensures 0 <= Dot(a, w, k) <= hi * Sum(w)
  {
    DotBetween(a, w, k, 0, hi);
    PrefixWithinSum(w, k);
    MulMonotone(Sum(w[..k]), Sum(w), hi);
  }

  lemma SmallMod(v: int, m: int)
    requires 0 <= v < m
    ensures v % m == v
  {
  }

  // Accumulating in a word that the largest possible sum fits never wraps.
  lemma {:induction false} WordHoldsDot(a: seq<int>, w: seq<int>, k: nat, hi: int, m: int)
    requires k <= |a| == |w| && Within(a, 0, hi) && 0 <= hi * Sum(w) < m && hi >= 0
    requires forall j :: 0 <= j < |w| ==> w[j] >= 0
    ensures WrapDot(a, w, k, m) == Dot(a, w, k) && 0 <= Dot(a, w, k) <= hi * Sum(w)
  {
    DotWithin(a, w, k, hi);
    if k == 0 {
    } else {
      WordHoldsDot(a, w, k - 1, hi, m);
      SmallMod(Dot(a, w, k), m);
    }
  }

  // The double sum over a patch of |wy| rows of |wx| values: every value weighed
  // by the product of its row's and its column's weight.

  ghost predicate IsPatch(p: seq<seq<int>>, wy: seq<int>, wx: seq<int>)
  {
    |p| == |wy| && forall j :: 0 <= j < |p| ==> |p[j]| == |wx|
  }

  function RowSum(row: seq<int>, wRow: int, wx: seq<int>, kx: nat): int
    requires kx <= |row| == |wx|
  {
    if kx == 0 then 0 else RowSum(row, wRow, wx, kx - 1) + wRow * wx[kx - 1] * row[kx - 1]
  }

  function DoubleSum(p: seq<seq<int>>, wy: seq<int>, wx: seq<int>, ky: nat, kx: nat): int
    requires IsPatch(p, wy, wx) && ky <= |wy| && kx <= |wx|
  {
    if ky == 0 then 0 else DoubleSum(p, wy, wx, ky - 1, kx) + RowSum(p[ky - 1], wy[ky - 1], wx, kx)
  }

  function Column(p: seq<seq<int>>, wy: seq<int>, wx: seq<int>, kx: nat): (col: seq<int>)
    requires IsPatch(p, wy, wx) && kx < |wx|
    ensures |col| == |wy|
  {
    seq(|wy|, j requires 0 <= j < |wy| => p[j][kx])
  }

  lemma {:induction false} NoColumns(p: seq<seq<int>>, wy: seq<int>, wx: seq<int>, ky: nat)
    requires IsPatch(p, wy, wx) && ky <= |wy|
    ensures DoubleSum(p, wy, wx, ky, 0) == 0
  {
    if ky == 0 {
    } else {
      NoColumns(p, wy, wx, ky - 1);
    }
  }

  // One more column adds that column's own weighted sum, weighed.
  lemma {:induction false} OneColumnMore(p: seq<seq<int>>, wy: seq<int>, wx: seq<int>, ky: nat, kx: nat)
    requires IsPatch(p, wy, wx) && ky <= |wy| && kx < |wx|
    ensures DoubleSum(p, wy, wx, ky, kx + 1)
            == DoubleSum(p, wy, wx, ky, kx) + Dot(Column(p, wy, wx, kx), wy, ky) * wx[kx]
  {
    if ky == 0 {
    } else {
      OneColumnMore(p, wy, wx, ky - 1, kx);
      var col := Column(p, wy, wx, kx);
      var a, b, c := col[ky - 1], wy[ky - 1], wx[kx];
      Distribute(Dot(col, wy, ky - 1), a * b, c);
      assert b * c * a == a * b * c;
    }
  }

  // Weighing the columns' sums is the double sum.
  lemma {:induction false} ColumnsThenRow(p: seq<seq<int>>, wy: seq<int>, wx: seq<int>, cols: seq<int>, k: nat)
    requires IsPatch(p, wy, wx) && |cols| == |wx| && k <= |wx|
    requires forall j :: 0 <= j < |wx| ==> cols[j] == Dot(Column(p, wy, wx, j), wy, |wy|)
    ensures Dot(cols, wx, k) == DoubleSum(p, wy, wx, |wy|, k)
  {
    if k == 0 {
      NoColumns(p, wy, wx, |wy|);
    } else {
      ColumnsThenRow(p, wy, wx, cols, k - 1);
      OneColumnMore(p, wy, wx, |wy|, k - 1);
    }
  }
}
