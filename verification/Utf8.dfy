/** UTF-8 as Go's unicode/utf8 and strings packages read it (section 3 of RFC 3629). */
module Utf8 {
  import opened Prelude

  predicate Continuation(b: byte) { 0x80 <= b < 0xC0 }

  // The length of the well-formed code point s begins with, or 0.
  function FirstLen(s: seq<byte>): (n: nat)
    ensures n <= 4 && n <= |s|
  {
    if s == [] then 0
    else if s[0] < 0x80 then 1
    else if 0xC2 <= s[0] < 0xE0 then
      if |s| >= 2 && Continuation(s[1]) then 2 else 0
    else if 0xE0 <= s[0] < 0xF0 then
      if |s| >= 3 && Continuation(s[1]) && Continuation(s[2])
         && (s[0] == 0xE0 ==> s[1] >= 0xA0) && (s[0] == 0xED ==> s[1] < 0xA0)
      then 3 else 0
    else if 0xF0 <= s[0] < 0xF5 then
      if |s| >= 4 && Continuation(s[1]) && Continuation(s[2]) && Continuation(s[3])
         && (s[0] == 0xF0 ==> s[1] >= 0x90) && (s[0] == 0xF4 ==> s[1] < 0x90)
      then 4 else 0
    else 0
  }

  const RUNE_ERROR: int := 0xFFFD

  // utf8.DecodeRuneInString: the code point s begins with and its length; a byte
  // that begins none counts as the error rune.
  function DecodeFirst(s: seq<byte>): (int, nat)
  {
    var n := FirstLen(s);
    if n == 0 then (RUNE_ERROR, if s == [] then 0 else 1)
    else if n == 1 then (s[0], 1)
    else
      var lead: int, c1 := s[0], Low(s[1]);
      if n == 2 then ((lead - 0xC0) * 0x40 + c1, 2)
      else if n == 3 then ((lead - 0xE0) * 0x1000 + c1 * 0x40 + Low(s[2]), 3)
      else ((lead - 0xF0) * 0x4_0000 + c1 * 0x1000 + Low(s[2]) * 0x40 + Low(s[3]), 4)
  }

  // What a continuation byte carries.
  function Low(b: byte): int { b as int - 0x80 }

  // utf8.ValidString.
  predicate Valid(s: seq<byte>)
  {
    s == [] || (FirstLen(s) > 0 && Valid(s[FirstLen(s)..]))
  }

  // Where the backward search for a leading byte ends: the nearest byte before
  // `from` that is not a continuation byte, or lim - 1.
  function LeadBefore(s: seq<byte>, from: int, lim: int): (p: int)
    requires 0 <= lim && lim - 1 <= from < |s|
    ensures lim - 1 <= p <= from
    decreases from
  {
    if from < lim || !Continuation(s[from]) then from else LeadBefore(s, from - 1, lim)
  }

  // utf8.DecodeLastRuneInString.
  function DecodeLast(s: seq<byte>): (r: (int, nat))
    ensures r.1 <= |s| && (s != [] ==> r.1 > 0)
  {
    if s == [] then (RUNE_ERROR, 0)
    else
      var end := |s|;
      if s[end - 1] < 0x80 then (s[end - 1], 1)
      else
        var lim := Max(end - 4, 0);
        var start := Max(LeadBefore(s, end - 2, lim), 0);
        var (r, n) := DecodeFirst(s[start..]);
        if start + n != end then (RUNE_ERROR, 1) else (r, n)
  }

  // r is exactly one code point.
  ghost predicate OneRune(r: seq<byte>) { r != [] && FirstLen(r) == |r| }

  lemma OneRuneIsValid(r: seq<byte>)
    requires OneRune(r)
    ensures Valid(r)
  {
    assert r[|r|..] == [];
  }

  // What follows a code point does not change how it is read.
  lemma FirstLenOfPrefix(a: seq<byte>, b: seq<byte>)
    requires FirstLen(a) > 0
    ensures FirstLen(a + b) == FirstLen(a) && DecodeFirst(a + b) == DecodeFirst(a)
  {
  }

  lemma {:induction false} ValidConcat(a: seq<byte>, b: seq<byte>)
    requires Valid(a) && Valid(b)
    ensures Valid(a + b)
  {
    if a == [] {
      assert a + b == b;
    } else {
      var n := FirstLen(a);
      FirstLenOfPrefix(a, b);
      assert (a + b)[n..] == a[n..] + b;
      ValidConcat(a[n..], b);
    }
  }

  lemma Slices<T>(s: seq<T>, n: nat, i: nat)
    requires n <= i <= |s|
    ensures s[n..][..i - n] == s[n..i] && s[n..][i - n..] == s[i..] && s[..n] + s[n..i] == s[..i]
  {
  }

  // The first code point is valid text by itself, and no byte of it after the first
  // is ASCII.
  lemma FirstAlone(s: seq<byte>)
    requires FirstLen(s) > 0
    ensures FirstLen(s) <= |s| && Valid(s[..FirstLen(s)])
    ensures forall i :: 0 < i < FirstLen(s) ==> s[i] >= 0x80
  {
    var a := s[..FirstLen(s)];
    assert FirstLen(a) == FirstLen(s) && a[FirstLen(s)..] == [];
  }

  // An ASCII byte is never inside a code point: text may be cut before it.
  lemma {:induction false} CutBeforeAscii(s: seq<byte>, i: nat)
    requires Valid(s) && i < |s| && s[i] < 0x80
    ensures Valid(s[..i]) && Valid(s[i..])
  {
    if i == 0 {
      assert s[0..] == s;
    } else {
      FirstAlone(s);
      CutAfterFirst(s, FirstLen(s), i);
      CutBeforeAscii(s[FirstLen(s)..], i - FirstLen(s));
      ValidConcat(s[..FirstLen(s)], s[FirstLen(s)..i]);
    }
  }

  lemma CutAfterFirst(s: seq<byte>, n: nat, i: nat)
    requires Valid(s) && 0 < n == FirstLen(s) <= i < |s|
    ensures Valid(s[n..]) && s[n..][i - n] == s[i]
    ensures s[n..][..i - n] == s[n..i] && s[n..][i - n..] == s[i..] && s[..n] + s[n..i] == s[..i]
  {
    Slices(s, n, i);
  }

  // Every non-empty valid text is valid text followed by one code point ...
  lemma {:induction false} SplitLast(s: seq<byte>) returns (k: nat)
    requires Valid(s) && s != []
    ensures k < |s| && Valid(s[..k]) && OneRune(s[k..])
  {
    var n := FirstLen(s);
    FirstAlone(s);
    if n == |s| {
      assert s[0..] == s;
      k := 0;
    } else {
      var j := SplitLast(s[n..]);
      k := n + j;
      Slices(s, n, k);
      ValidConcat(s[..n], s[n..k]);
    }
  }

  // ... and decoding backwards finds exactly that code point.
  lemma DecodeLastFindsIt(s: seq<byte>, k: nat)
    requires k < |s| && OneRune(s[k..])
    ensures DecodeLast(s) == DecodeFirst(s[k..]) && DecodeLast(s).1 == |s| - k
  {
    var r := s[k..];
    forall j | k < j < |s|
      ensures Continuation(s[j])
    {
      assert r[j - k] == s[j];
    }
    assert s[k] == r[0] && s[|s| - 1] == r[|r| - 1];
    if |r| > 1 {
      var lim := Max(|s| - 4, 0);
      FindsLead(s, |s| - 2, lim, k);
    }
  }

  lemma {:induction false} FindsLead(s: seq<byte>, from: int, lim: int, k: nat)
    requires 0 <= lim <= k <= from < |s| && !Continuation(s[k])
    requires forall j :: k < j <= from ==> Continuation(s[j])
    ensures LeadBefore(s, from, lim) == k
    decreases from
  {
    if from <= k {
    } else {
      FindsLead(s, from - 1, lim, k);
    }
  }
}
