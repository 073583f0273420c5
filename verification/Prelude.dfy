/** Small shared vocabulary: bytes, optional values, and sums over sequences. */
module Prelude {
  type byte = b: int | 0 <= b < 256

  datatype Option<+T> = None | Some(value: T)

  function Min(a: int, b: int): int { if a < b then a else b }

  function Max(a: int, b: int): int { if a > b then a else b }

  // The wrap-around of an unsigned 16- and 32-bit store.
  function U16(v: int): int { v % 0x1_0000 }

  function U32(v: int): int { v % 0x1_0000_0000 }

  // Sums are taken from the left, so that appending one term is one unfolding.
  function Sum(s: seq<int>): int
  {
    if s == [] then 0 else Sum(s[..|s| - 1]) + s[|s| - 1]
  }

  lemma {:induction false} SumOfTwoParts(a: seq<int>, b: seq<int>)
    ensures Sum(a + b) == Sum(a) + Sum(b)
  {
    if b == [] {
      assert a + b == a;
    } else {
      var c := b[..|b| - 1];
      assert (a + b)[..|a + b| - 1] == a + c;
      SumOfTwoParts(a, c);
    }
  }

  lemma {:induction false} SumOfUpdate(s: seq<int>, i: nat, v: int)
    requires i < |s|
    ensures Sum(s[i := v]) == Sum(s) - s[i] + v
  {
    var last := |s| - 1;
    if i == last {
      assert s[i := v][..last] == s[..last];
    } else {
      assert s[i := v][..last] == s[..last][i := v];
      SumOfUpdate(s[..last], i, v);
    }
  }

  // A term of a sum of non-negative terms is at most the sum.
  lemma {:induction false} TermWithinSum(s: seq<int>, i: nat)
    requires i < |s| && forall k :: 0 <= k < |s| ==> s[k] >= 0
    ensures 0 <= s[i] <= Sum(s)
  {
    var last := |s| - 1;
    SumNotNegative(s[..last]);
    if i == last {
    } else {
      TermWithinSum(s[..last], i);
    }
  }

  lemma {:induction false} SumNotNegative(s: seq<int>)
    requires forall k :: 0 <= k < |s| ==> s[k] >= 0
    ensures Sum(s) >= 0
  {
    if s == [] {
    } else {
      SumNotNegative(s[..|s| - 1]);
    }
  }

  // Some element, as walking a map gives it.
  method AnyOf<T(==)>(s: set<T>) returns (x: T)
    requires s != {}
    ensures x in s
  {
    x :| x in s;
  }

  function Concat<T>(parts: seq<seq<T>>): seq<T>
  {
    if parts == [] then [] else Concat(parts[..|parts| - 1]) + parts[|parts| - 1]
  }

  function Zeros(n: nat): seq<int> { seq(n, _ => 0) }

  // a <= b exactly when a*d <= b*d, for a positive d.
  lemma MulOrder(a: int, b: int, d: int)
    requires d > 0
    ensures a <= b <==> a * d <= b * d
  {
    if a <= b {
      assert 0 <= (b - a) * d;
    } else {
      assert 0 < (a - b) * d;
    }
  }

  lemma Distribute(a: int, b: int, c: int)
    ensures (a + b) * c == a * c + b * c
  {
  }

  lemma MulMonotone(a: int, b: int, c: int)
    requires a <= b && c >= 0
    ensures a * c <= b * c
  {
  }

  // The first n of some pieces, one after the other.
  function Packed<T>(pieces: seq<seq<T>>, n: nat): seq<T>
    requires n <= |pieces|
  {
    if n == 0 then [] else Packed(pieces, n - 1) + pieces[n - 1]
  }

  lemma {:induction false} PackedLength<T>(pieces: seq<seq<T>>, len: nat, n: nat)
    requires n <= |pieces| && forall k :: 0 <= k < |pieces| ==> |pieces[k]| == len
    ensures |Packed(pieces, n)| == n * len
  {
    if n == 0 {
    } else {
      PackedLength(pieces, len, n - 1);
      Distribute(n - 1, 1, len);
    }
  }

  lemma {:induction false} PackedGrows<T>(pieces: seq<seq<T>>, len: nat, n: nat, m: nat)
    requires n < m <= |pieces| && forall k :: 0 <= k < |pieces| ==> |pieces[k]| == len
    ensures |Packed(pieces, n)| + len <= |Packed(pieces, m)|
  {
    if n == m - 1 {
    } else {
      PackedGrows(pieces, len, n, m - 1);
    }
  }

  // Piece r is found where the pieces before it, all of one length, end.
  lemma {:induction false} PackedPiece<T>(pieces: seq<seq<T>>, len: nat, n: nat, r: nat)
    requires r < n <= |pieces| && forall k :: 0 <= k < |pieces| ==> |pieces[k]| == len
    ensures r * len + len <= |Packed(pieces, n)|
    ensures Packed(pieces, n)[r * len..r * len + len] == pieces[r]
  {
    PackedLength(pieces, len, n - 1);
    if r == n - 1 {
    } else {
      PackedPiece(pieces, len, n - 1, r);
    }
  }
}
