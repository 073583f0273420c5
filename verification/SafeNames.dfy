/** Making a viewer-supplied file name safe to create
    (host-agent/internal/transfer/name.go). Names are byte strings, as in Go. */
module SafeNames {
  import opened Prelude
  import opened Utf8

  type Name = seq<byte>

  datatype NameResult = Safe(name: Name) | BadName

  const MAX_NAME_BYTES: int := 200

  function Ascii(s: string): (b: seq<byte>)
    requires forall i :: 0 <= i < |s| ==> s[i] < 0x80 as char
    ensures |b| == |s|
  {
    seq(|s|, i requires 0 <= i < |s| => s[i] as int)
  }

  // unicode.IsSpace.
  predicate IsSpace(r: int)
  {
    0x09 <= r <= 0x0D || r == 0x20 || r == 0x85 || r == 0xA0 || r == 0x1680 || 0x2000 <= r <= 0x200A
    || r == 0x2028 || r == 0x2029 || r == 0x202F || r == 0x205F || r == 0x3000
  }

  predicate IsBidiControl(r: int)
  {
    r == 0x200E || r == 0x200F || 0x202A <= r <= 0x202E || 0x2066 <= r <= 0x2069
  }

  // The code points no name may contain: controls, <>"|?* and the bidi controls.
  predicate BadRune(r: int)
  {
    r < 0x20 || r == 0x7F
    || r == 0x3C || r == 0x3E || r == 0x22 || r == 0x7C || r == 0x3F || r == 0x2A
    || IsBidiControl(r)
  }

  // '/', '\' and ':'.
  predicate BadByte(b: byte) { b == 0x2F || b == 0x5C || b == 0x3A }

  predicate HasBadByte(s: Name) { exists i :: 0 <= i < |s| && BadByte(s[i]) }

  predicate HasBadRune(s: Name)
    requires Valid(s)
  {
    s != [] && (BadRune(DecodeFirst(s).0) || HasBadRune(s[FirstLen(s)..]))
  }

  function TrimLeftSpace(s: Name): Name
  {
    if s != [] && IsSpace(DecodeFirst(s).0) then TrimLeftSpace(s[DecodeFirst(s).1..]) else s
  }

  function TrimRightSpace(s: Name): (t: Name)
    ensures t <= s
  {
    if s != [] && IsSpace(DecodeLast(s).0) then TrimRightSpace(s[..|s| - DecodeLast(s).1]) else s
  }

  // strings.TrimSpace.
  function TrimSpace(s: Name): Name { TrimRightSpace(TrimLeftSpace(s)) }

  predicate DotOrSpace(b: byte) { b == 0x2E || b == 0x20 }

  // strings.TrimRight(s, ". ").
  function TrimDots(s: Name): (t: Name)
    ensures t <= s && (t != [] ==> !DotOrSpace(t[|t| - 1]))
  {
    if s != [] && DotOrSpace(s[|s| - 1]) then TrimDots(s[..|s| - 1]) else s
  }

  // What strings.Cut(s, ".") leaves on the left.
  function Head(s: Name): (h: Name)
    ensures h <= s
  {
    if s == [] || s[0] == 0x2E then [] else [s[0]] + Head(s[1..])
  }

  // ToUpper, as far as it can matter here: no code point outside ASCII has an upper
  // case among the letters of the reserved names.
  function Upper(s: Name): (u: Name)
    ensures |u| == |s|
  {
    seq(|s|, i requires 0 <= i < |s| => if 0x61 <= s[i] <= 0x7A then s[i] - 0x20 else s[i])
  }

  predicate Reserved(head: Name)
  {
    var u := Upper(head);
    || u == Ascii("CON") || u == Ascii("PRN") || u == Ascii("AUX") || u == Ascii("NUL")
    || (|u| == 4 && (u[..3] == Ascii("COM") || u[..3] == Ascii("LPT")) && 0x31 <= u[3] <= 0x39)
  }

  // strings.LastIndex(s, "."), or -1.
  function LastDot(s: Name): (i: int)
    ensures -1 <= i < |s| && (i >= 0 ==> s[i] == 0x2E)
    ensures forall j :: i < j < |s| ==> s[j] != 0x2E
  {
    if s == [] then -1 else if s[|s| - 1] == 0x2E then |s| - 1 else LastDot(s[..|s| - 1])
  }

  function SplitExt(s: Name): (r: (Name, Name))
    ensures r.0 + r.1 == s
  {
    var i := LastDot(s);
    if i <= 0 then (s, []) else (s[..i], s[i..])
  }

  // Dropping whole code points from the end until at most `budget` bytes are left.
  function CutTo(s: Name, budget: nat): (t: Name)
    ensures t <= s && |t| <= budget
  {
    if |s| <= budget then s else CutTo(s[..|s| - DecodeLast(s).1], budget)
  }

  // The stem and extension Truncate works on: an over-long extension is no extension.
  function Parts(stem: Name, ext: Name): (p: (Name, Name))
    ensures |p.1| <= MAX_NAME_BYTES / 2
  {
    if |ext| > MAX_NAME_BYTES / 2 then (stem + ext, []) else (stem, ext)
  }

  function Shortened(s: Name, e: Name): Name
    requires |e| <= MAX_NAME_BYTES / 2
  {
    var cut := TrimDots(CutTo(s, MAX_NAME_BYTES - |e|));
    if cut == [] then [] else cut + e
  }

  function Truncated(stem: Name, ext: Name): Name
  {
    Shortened(Parts(stem, ext).0, Parts(stem, ext).1)
  }

  // filepath.Base where both separators count and a drive letter is a volume: on
  // Windows. Elsewhere fewer bytes are special.
  function Base(s: Name): Name
  {
    if s == [] then Ascii(".")
    else if |s| >= 2 && s[1] == 0x3A then BaseOfPath(s[2..])
    else BaseOfPath(s)
  }

  function BaseOfPath(p: Name): Name
  {
    if forall i :: 0 <= i < |p| ==> p[i] == 0x2F || p[i] == 0x5C then Ascii("\\") else LastComponent(p)
  }

  function LastComponent(p: Name): Name
  {
    if p == [] then [] else
    var last := p[|p| - 1];
    if last == 0x2F || last == 0x5C then LastComponent(p[..|p| - 1]) else AfterLastSeparator(p)
  }

  function AfterLastSeparator(p: Name): Name
  {
    if p == [] || p[|p| - 1] == 0x2F || p[|p| - 1] == 0x5C then []
    else AfterLastSeparator(p[..|p| - 1]) + [p[|p| - 1]]
  }

  // Every check up to the reserved names, in order; what is left of the name.
  function Checked(raw: Name): NameResult
  {
    var name := TrimSpace(raw);
    if name == [] || !Valid(name) || HasBadByte(name) || HasBadRune(name) then BadName
    else
      var n := TrimDots(name);
      if n == [] || Reserved(Head(n)) then BadName else Safe(n)
  }

  function Fitted(n: Name): Name
  {
    if |n| > MAX_NAME_BYTES then Truncated(SplitExt(n).0, SplitExt(n).1) else n
  }

  predicate PlainComponent(n: Name) { n == Base(n) && n != Ascii(".") && n != Ascii("..") }

  function SafeName(raw: Name): NameResult
  {
    match Checked(raw)
    case BadName => BadName
    case Safe(n) =>
      var f := Fitted(n);
      if f == [] || !PlainComponent(f) then BadName else Safe(f)
  }

  // Text with neither forbidden bytes nor forbidden code points.
  ghost predicate Clean(s: Name)
  {
    Valid(s) && !HasBadByte(s) && !HasBadRune(s)
  }

  lemma {:induction false} BadRuneConcat(a: Name, b: Name)
    requires Valid(a) && Valid(b)
    ensures Valid(a + b) && (HasBadRune(a + b) <==> HasBadRune(a) || HasBadRune(b))
  {
    ValidConcat(a, b);
    if a == [] {
      assert a + b == b;
    } else {
      BadRuneConcat(a[FirstLen(a)..], b);
      BadRuneFirst(a, b);
    }
  }

  lemma BadRuneFirst(a: Name, b: Name)
    requires Valid(a) && Valid(a + b) && a != []
    ensures Valid(a[FirstLen(a)..] + b)
    ensures HasBadRune(a + b) <==> BadRune(DecodeFirst(a).0) || HasBadRune(a[FirstLen(a)..] + b)
  {
    var n := FirstLen(a);
    FirstLenOfPrefix(a, b);
    assert (a + b)[n..] == a[n..] + b;
  }

  // A clean text cut in two valid parts is clean in both.
  lemma CleanParts(s: Name, k: nat)
    requires Clean(s) && k <= |s| && Valid(s[..k]) && Valid(s[k..])
    ensures Clean(s[..k]) && Clean(s[k..])
  {
    assert s[..k] + s[k..] == s;
    BadRuneConcat(s[..k], s[k..]);
    forall i | 0 <= i < |s[k..]|
      ensures !BadByte(s[k..][i])
    {
      assert s[k..][i] == s[k + i];
    }
  }

  lemma CleanConcat(a: Name, b: Name)
    requires Clean(a) && Clean(b)
    ensures Clean(a + b)
  {
    BadRuneConcat(a, b);
  }

  // Trimming dots and spaces off the end cuts on code-point boundaries.
  lemma {:induction false} TrimDotsClean(s: Name)
    requires Clean(s)
    ensures Clean(TrimDots(s))
  {
    if s == [] || !DotOrSpace(s[|s| - 1]) {
    } else {
      CutBeforeAscii(s, |s| - 1);
      CleanParts(s, |s| - 1);
      TrimDotsClean(s[..|s| - 1]);
    }
  }

  // Cutting to a budget cuts on code-point boundaries, and by less than one code
  // point more than it has to.
  lemma {:induction false} CutToClean(s: Name, budget: nat)
    requires Clean(s)
    ensures Clean(CutTo(s, budget))
    ensures |s| > budget ==> |CutTo(s, budget)| > budget - 4
    decreases |s|
  {
    if |s| <= budget {
    } else {
      var k := LastRuneOff(s);
      CutToClean(s[..k], budget);
    }
  }

  // Where the last code point of a clean text begins; what is before it is clean.
  lemma LastRuneOff(s: Name) returns (k: nat)
    requires Clean(s) && s != []
    ensures k < |s| <= k + 4 && DecodeLast(s).1 == |s| - k && Clean(s[..k])
  {
    k := SplitLast(s);
    DecodeLastFindsIt(s, k);
    OneRuneIsValid(s[k..]);
    CleanParts(s, k);
  }

  // What every name that passes the checks is.
  ghost predicate Sound(n: Name)
  {
    && Clean(n) && n != [] && !DotOrSpace(n[|n| - 1]) && !IsSpace(DecodeFirst(n).0)
  }

  lemma {:induction false} TrimLeftStops(s: Name)
    ensures var t := TrimLeftSpace(s); t != [] ==> !IsSpace(DecodeFirst(t).0)
  {
    if s == [] || !IsSpace(DecodeFirst(s).0) {
    } else {
      TrimLeftStops(s[DecodeFirst(s).1..]);
    }
  }

  // A valid non-empty beginning starts with the same code point.
  lemma SameStart(s: Name, t: Name)
    requires t <= s && t != [] && Valid(t)
    ensures DecodeFirst(t) == DecodeFirst(s)
  {
    FirstLenOfPrefix(t, s[|t|..]);
    assert t + s[|t|..] == s;
  }

  lemma CheckedIsSound(raw: Name)
    requires Checked(raw).Safe?
    ensures Sound(Checked(raw).name) && !Reserved(Head(Checked(raw).name))
  {
    var name := TrimSpace(raw);
    TrimLeftStops(raw);
    SameStart(TrimLeftSpace(raw), name);
    TrimDotsClean(name);
    SameStart(name, Checked(raw).name);
  }

  // The stem and the extension that shortening works on are clean, and the name
  // is the two together.
  lemma PartsAreClean(n: Name)
    requires Sound(n)
    ensures var p := Parts(SplitExt(n).0, SplitExt(n).1);
            Clean(p.0) && Clean(p.1) && p.0 + p.1 == n
  {
    var p := Parts(SplitExt(n).0, SplitExt(n).1);
    if p.1 != [] {
      CutBeforeAscii(n, LastDot(n));
      CleanParts(n, LastDot(n));
    } else {
      assert p.0 == n;
    }
  }

  // A clean beginning of a sound name joined to a clean ending is sound again.
  lemma JoinedIsSound(n: Name, cut: Name, e: Name)
    requires Sound(n) && Clean(cut) && Clean(e) && cut != [] && cut <= n
    requires !DotOrSpace((cut + e)[|cut + e| - 1])
    ensures Sound(cut + e)
  {
    CleanConcat(cut, e);
    SameStart(n, cut);
    SameStart(cut + e, cut);
  }

  // Shortening keeps a name sound: its stem is cut on a code-point boundary, its
  // extension is kept whole unless it is dropped, and it fits the limit.
  lemma FittedIsSound(n: Name)
    requires Sound(n) && Fitted(n) != []
    ensures Sound(Fitted(n)) && 1 <= |Fitted(n)| <= MAX_NAME_BYTES
    ensures |n| <= MAX_NAME_BYTES ==> Fitted(n) == n
  {
    if |n| > MAX_NAME_BYTES {
      PartsAreClean(n);
      var p := Parts(SplitExt(n).0, SplitExt(n).1);
      ShortenedIsSound(n, p.0, p.1);
    }
  }

  lemma ShortenedIsSound(n: Name, s: Name, e: Name)
    requires Sound(n) && Clean(s) && Clean(e) && s + e == n && |e| <= MAX_NAME_BYTES / 2
    ensures Shortened(s, e) != [] ==> Sound(Shortened(s, e)) && |Shortened(s, e)| <= MAX_NAME_BYTES
  {
    var cut := TrimDots(CutTo(s, MAX_NAME_BYTES - |e|));
    CutToClean(s, MAX_NAME_BYTES - |e|);
    TrimDotsClean(CutTo(s, MAX_NAME_BYTES - |e|));
    if cut != [] {
      LastOfJoined(n, s, cut, e);
      JoinedIsSound(n, cut, e);
    }
  }

  lemma LastOfJoined(n: Name, s: Name, cut: Name, e: Name)
    requires s + e == n && n != [] && !DotOrSpace(n[|n| - 1]) && cut <= s
    requires cut != [] && !DotOrSpace(cut[|cut| - 1])
    ensures cut <= n
    ensures !DotOrSpace((cut + e)[|cut + e| - 1])
  {
    if e != [] {
      assert (cut + e)[|cut + e| - 1] == e[|e| - 1] == n[|n| - 1];
    }
  }

  // A sound name is a plain path component already: the last check never fires.
  lemma SoundIsPlain(n: Name)
    requires Sound(n)
    ensures PlainComponent(n)
  {
    BaseIsItself(n);
    NotDots(n);
  }

  lemma NotDots(n: Name)
    requires n != [] && n[|n| - 1] != 0x2E
    ensures n != Ascii(".") && n != Ascii("..")
  {
    assert Ascii(".")[0] == 0x2E && Ascii("..")[1] == 0x2E;
  }

  lemma BaseIsItself(n: Name)
    requires n != [] && !HasBadByte(n)
    ensures Base(n) == n
  {
    NoDrive(n);
    BaseOfPathIsAll(n);
  }

  lemma NoDrive(n: Name)
    requires !HasBadByte(n)
    ensures |n| >= 2 ==> n[1] != 0x3A
  {
    NoneBad(n);
  }

  lemma BaseOfPathIsAll(n: Name)
    requires n != [] && !HasBadByte(n)
    ensures BaseOfPath(n) == n
  {
    LastComponentIsAll(n);
    assert !BadByte(n[0]);
  }

  lemma LastComponentIsAll(n: Name)
    requires n != [] && !HasBadByte(n)
    ensures LastComponent(n) == n
  {
    NoneBad(n);
    NoSeparators(n);
  }

  lemma NoneBad(n: Name)
    requires !HasBadByte(n)
    ensures forall i :: 0 <= i < |n| ==> n[i] != 0x2F && n[i] != 0x5C && n[i] != 0x3A
  {
    forall i | 0 <= i < |n|
      ensures n[i] != 0x2F && n[i] != 0x5C && n[i] != 0x3A
    {
      assert !BadByte(n[i]);
    }
  }

  lemma {:induction false} NoSeparators(n: Name)
    requires !HasBadByte(n)
    ensures AfterLastSeparator(n) == n
  {
    if n == [] {
    } else {
      NoneBad(n);
      assert forall i :: 0 <= i < |n| - 1 ==> n[..|n| - 1][i] == n[i];
      NoSeparators(n[..|n| - 1]);
    }
  }

  // Every name SafeName returns: valid UTF-8 of 1 to 200 bytes with no forbidden
  // character, beginning with no white space and ending in neither dot nor space.
  lemma SafeNameIsSound(raw: Name)
    requires SafeName(raw).Safe?
    ensures Sound(SafeName(raw).name) && 1 <= |SafeName(raw).name| <= MAX_NAME_BYTES
  {
    CheckedIsSound(raw);
    FittedIsSound(Checked(raw).name);
  }

  // The final check for a plain component never rejects anything: a name is
  // refused by an earlier check or because shortening leaves nothing of it.
  lemma LastCheckNeverFires(raw: Name)
    ensures SafeName(raw) == if Checked(raw).Safe? && Fitted(Checked(raw).name) != []
                             then Safe(Fitted(Checked(raw).name)) else BadName
  {
    if Checked(raw).Safe? && Fitted(Checked(raw).name) != [] {
      CheckedIsSound(raw);
      FittedIsSound(Checked(raw).name);
      SoundIsPlain(Fitted(Checked(raw).name));
    }
  }

  predicate EndsInSpace(n: Name) { n != [] && IsSpace(DecodeLast(n).0) }

  // SafeName leaves its own result alone exactly when that does not end in white
  // space (it can, in white space outside ASCII that a trailing dot hid) and, after
  // shortening, has not become a reserved name.
  lemma SafeNameTwice(raw: Name)
    requires SafeName(raw).Safe?
    ensures var n := SafeName(raw).name;
            SafeName(n) == Safe(n) <==> !EndsInSpace(n) && !Reserved(Head(n))
    ensures |Checked(raw).name| <= MAX_NAME_BYTES ==> !Reserved(Head(SafeName(raw).name))
  {
    SafeNameIsSound(raw);
    CheckedIsSound(raw);
    if |Checked(raw).name| <= MAX_NAME_BYTES {
      FittedIsSound(Checked(raw).name);
    }
    SoundTwice(SafeName(raw).name);
  }

  lemma SoundTwice(n: Name)
    requires Sound(n) && 1 <= |n| <= MAX_NAME_BYTES
    ensures SafeName(n) == Safe(n) <==> !EndsInSpace(n) && !Reserved(Head(n))
  {
    if EndsInSpace(n) {
      ShorterByNow(n);
    } else {
      SoundUnchanged(n);
      LastCheckNeverFires(n);
    }
  }

  // Without white space at its end a sound name passes every check as it is, but
  // for the reserved names.
  lemma SoundUnchanged(n: Name)
    requires Sound(n) && !EndsInSpace(n)
    ensures Checked(n) == if Reserved(Head(n)) then BadName else Safe(n)
  {
    assert TrimLeftSpace(n) == n;
    assert TrimRightSpace(n) == n;
    assert TrimDots(n) == n;
  }

  // A name that ends in white space comes out shorter, or not at all.
  lemma ShorterByNow(n: Name)
    requires Sound(n) && |n| <= MAX_NAME_BYTES && EndsInSpace(n)
    ensures SafeName(n).Safe? ==> |SafeName(n).name| < |n|
  {
    assert TrimLeftSpace(n) == n;
    var t := TrimSpace(n);
    assert |t| < |n|;
    LastCheckNeverFires(n);
    if SafeName(n).Safe? {
      assert |Checked(n).name| <= |t|;
    }
  }

  // What is left of a name before it is looked at for reserved names and length.
  function Stripped(raw: Name): Name { TrimDots(TrimSpace(raw)) }

  // An input short enough not to be cut: applied to its own result, SafeName returns
  // it unchanged exactly when the input, stripped, does not end in white space.
  lemma ShortNameTwice(raw: Name)
    requires |raw| <= MAX_NAME_BYTES && SafeName(raw).Safe?
    ensures SafeName(SafeName(raw).name) == SafeName(raw) <==> !EndsInSpace(Stripped(raw))
    ensures SafeName(raw) == Safe(Stripped(raw))
  {
    StrippedIsShorter(raw);
    LastCheckNeverFires(raw);
    SafeNameTwice(raw);
  }

  lemma StrippedIsShorter(raw: Name)
    ensures |Stripped(raw)| <= |raw|
  {
    LeftTrimmedIsShorter(raw);
  }

  lemma {:induction false} LeftTrimmedIsShorter(s: Name)
    ensures |TrimLeftSpace(s)| <= |s|
  {
    if s == [] {
    } else if IsSpace(DecodeFirst(s).0) {
      LeftTrimmedIsShorter(s[DecodeFirst(s).1..]);
    }
  }

  // Text with no white space but that of ASCII.
  predicate NoWideSpace(s: Name)
  {
    s == [] || (!(IsSpace(DecodeFirst(s).0) && DecodeFirst(s).0 >= 0x80) && NoWideSpace(s[DecodeFirst(s).1..]))
  }

  lemma {:induction false} NoWideSpaceLeft(s: Name)
    requires NoWideSpace(s)
    ensures NoWideSpace(TrimLeftSpace(s))
  {
    if s == [] {
    } else if IsSpace(DecodeFirst(s).0) {
      NoWideSpaceLeft(s[DecodeFirst(s).1..]);
    }
  }

  // ... nor has a valid beginning of it, ...
  lemma {:induction false} NoWideSpaceBefore(s: Name, t: Name)
    requires NoWideSpace(s) && t <= s && Valid(t)
    ensures NoWideSpace(t)
  {
    if t == [] {
    } else {
      SameStart(s, t);
      NoWideSpaceBefore(s[FirstLen(t)..], t[FirstLen(t)..]);
    }
  }

  // ... nor an end of it after a valid beginning.
  lemma {:induction false} NoWideSpaceAfter(s: Name, k: nat)
    requires NoWideSpace(s) && k <= |s| && Valid(s[..k])
    ensures NoWideSpace(s[k..])
  {
    if k == 0 {
      assert s[0..] == s;
    } else {
      var n := FirstLen(s[..k]);
      SameStart(s, s[..k]);
      Slices(s, n, k);
      assert s[..k][n..] == s[n..k];
      NoWideSpaceAfter(s[n..], k - n);
    }
  }

  // A sound name without white space outside ASCII ends in none.
  lemma EndsInNoSpace(n: Name)
    requires Sound(n) && NoWideSpace(n)
    ensures !EndsInSpace(n)
  {
    var k := SplitLast(n);
    DecodeLastFindsIt(n, k);
    NoWideSpaceAfter(n, k);
    OneRuneIsValid(n[k..]);
    CleanParts(n, k);
    LastRuneNoSpace(n[k..]);
  }

  lemma LastRuneNoSpace(r: Name)
    requires OneRune(r) && Clean(r) && NoWideSpace(r) && !DotOrSpace(r[|r| - 1])
    ensures !IsSpace(DecodeFirst(r).0)
  {
    assert !BadRune(DecodeFirst(r).0);
  }

  // For inputs of at most 200 bytes without white space outside ASCII, twice is once.
  lemma SafeNameIdempotent(raw: Name)
    requires |raw| <= MAX_NAME_BYTES && NoWideSpace(raw) && SafeName(raw).Safe?
    ensures SafeName(SafeName(raw).name) == SafeName(raw)
  {
    ShortNameTwice(raw);
    NoWideSpaceLeft(raw);
    StrippedIsSound(raw);
    NoWideSpaceBefore(TrimLeftSpace(raw), Stripped(raw));
    EndsInNoSpace(Stripped(raw));
  }

  lemma StrippedIsSound(raw: Name)
    requires SafeName(raw).Safe?
    ensures Sound(Stripped(raw)) && Stripped(raw) <= TrimLeftSpace(raw)
  {
    CheckedIsSound(raw);
    assert Stripped(raw) <= TrimSpace(raw) <= TrimLeftSpace(raw);
  }

  // A witness outside that: "a", U+00A0, "." comes out as "a", U+00A0; and that, looked
  // at again, as "a".
  const HIDDEN_SPACE: Name := [0x61, 0xC2, 0xA0]

  lemma NoBreakSpaceLost()
    ensures SafeName(HIDDEN_SPACE + [0x2E]) == Safe(HIDDEN_SPACE) && SafeName(HIDDEN_SPACE) == Safe([0x61])
  {
    HiddenByDot();
    LastCheckNeverFires(HIDDEN_SPACE + [0x2E]);
    NoBreakSpaceTrimmed();
  }

  // The plainest of names stays what it is.
  lemma PlainNameIsSafe()
    ensures SafeName([0x61]) == Safe([0x61])
  {
    var a: Name := [0x61];
    assert a[1..] == [] && Clean(a);
    assert DecodeFirst(a) == (0x61, 1) && TrimLeftSpace(a) == a;
    assert DecodeLast(a) == (0x61, 1) && TrimRightSpace(a) == a;
    assert TrimDots(a) == a && Head(a) == a;
    assert Checked(a) == Safe(a);
    LastCheckNeverFires(a);
  }

  lemma HiddenByDot()
    ensures Checked(HIDDEN_SPACE + [0x2E]) == Safe(HIDDEN_SPACE)
  {
    var raw, n: Name := HIDDEN_SPACE + [0x2E], HIDDEN_SPACE;
    var dot: Name := [0x2E];
    assert n[1..] == [0xC2, 0xA0] && n[1..][2..] == [] && dot[1..] == [];
    assert Clean(n) && Clean(dot);
    CleanConcat(n, dot);
    assert TrimSpace(raw) == raw by {
      assert TrimLeftSpace(raw) == raw;
    }
    assert TrimDots(raw) == n by {
      assert raw[..3] == n && TrimDots(raw) == TrimDots(raw[..3]);
    }
    WitnessNotReserved();
  }

  lemma WitnessNotReserved()
    ensures !Reserved(Head(HIDDEN_SPACE))
  {
    var n: Name := HIDDEN_SPACE;
    assert n[1..] == [0xC2, 0xA0] && n[1..][1..] == [0xA0] && n[1..][1..][1..] == [];
    assert Head(n) == [0x61] + Head(n[1..]);
    assert Head(n[1..]) == [0xC2] + Head(n[1..][1..]);
    assert Head(n)[1] == 0xC2 && Upper(Head(n))[1] == 0xC2 && |Head(n)| <= 3;
    assert Ascii("CON")[1] == 0x4F && Ascii("PRN")[1] == 0x52 && Ascii("AUX")[1] == 0x55 && Ascii("NUL")[1] == 0x55;
  }

  lemma NoBreakSpaceTrimmed()
    ensures SafeName(HIDDEN_SPACE) == Safe([0x61])
  {
    var n, a: Name := HIDDEN_SPACE, [0x61];
    assert n[1..] == [0xC2, 0xA0] && a[1..] == [] && Clean(a);
    assert LeadBefore(n, 1, 0) == 1;
    assert DecodeFirst(n[1..]) == (0xA0, 2);
    assert DecodeLast(n) == (0xA0, 2) && n[..1] == a;
    assert TrimLeftSpace(n) == n;
    assert DecodeLast(a) == (0x61, 1) && TrimRightSpace(a) == a;
    assert TrimRightSpace(n) == TrimRightSpace(n[..1]);
    assert TrimDots(a) == a && Head(a) == a;
    assert Checked(n) == Safe(a);
    LastCheckNeverFires(n);
  }

  // Printable ASCII without the forbidden characters is clean.
  lemma {:induction false} PlainAsciiIsClean(s: Name)
    requires forall i :: 0 <= i < |s| ==> 0x20 <= s[i] < 0x7F && !BadByte(s[i]) && !BadRune(s[i])
    ensures Clean(s)
  {
    if s == [] {
    } else {
      PlainAsciiIsClean(s[1..]);
      forall i | 0 <= i < |s|
        ensures !BadByte(s[i])
      {
      }
    }
  }

  function Spaces(n: nat): (s: Name)
    ensures |s| == n && forall i :: 0 <= i < n ==> s[i] == 0x20
  {
    seq(n, _ => 0x20)
  }

  lemma {:induction false} SpacesTrimmed(a: Name, n: nat)
    requires a != [] && !DotOrSpace(a[|a| - 1])
    ensures TrimDots(a + Spaces(n)) == a
  {
    var s := a + Spaces(n);
    if n == 0 {
      assert s == a;
    } else {
      assert s[..|s| - 1] == a + Spaces(n - 1);
      SpacesTrimmed(a, n - 1);
    }
  }

  lemma {:induction false} CutAscii(s: Name, budget: nat)
    requires forall i :: 0 <= i < |s| ==> s[i] < 0x80
    ensures CutTo(s, budget) == if |s| <= budget then s else s[..budget]
    decreases |s|
  {
    if |s| <= budget {
    } else {
      CutAscii(s[..|s| - 1], budget);
    }
  }

  const CON: Name := [0x43, 0x4F, 0x4E]
  const X_TXT: Name := [0x78, 0x2E, 0x74, 0x78, 0x74]
  const DOT_TXT: Name := [0x2E, 0x74, 0x78, 0x74]

  // The other witness: "CON", 200 spaces, "x.txt" passes the reserved-name check and
  // is then shortened to "CON.txt", which SafeName itself refuses.
  lemma ShorteningCanReserve()
    ensures SafeName(CON + Spaces(200) + X_TXT) == Safe(CON + DOT_TXT)
    ensures SafeName(CON + DOT_TXT) == BadName
  {
    PaddedIsChecked();
    PaddedIsShortened();
    LastCheckNeverFires(CON + Spaces(200) + X_TXT);
    ReservedIsRefused();
  }

  lemma PaddedIsChecked()
    ensures Checked(CON + Spaces(200) + X_TXT) == Safe(CON + Spaces(200) + X_TXT)
  {
    var raw := CON + Spaces(200) + X_TXT;
    PlainAsciiIsClean(raw);
    assert raw[0] == 0x43 && raw[|raw| - 1] == 0x74;
    assert TrimLeftSpace(raw) == raw && TrimRightSpace(raw) == raw && TrimDots(raw) == raw;
    LongHead(raw, 5);
  }

  // A head of five or more bytes is not reserved.
  lemma {:induction false} LongHead(s: Name, n: nat)
    requires n <= |s| && forall i :: 0 <= i < n ==> s[i] != 0x2E
    ensures |Head(s)| >= n
    ensures n >= 5 ==> !Reserved(Head(s))
  {
    if n == 0 {
    } else {
      LongHead(s[1..], n - 1);
    }
  }

  lemma PaddedIsShortened()
    ensures Fitted(CON + Spaces(200) + X_TXT) == CON + DOT_TXT
  {
    var raw := CON + Spaces(200) + X_TXT;
    var stem := CON + Spaces(200) + X_TXT[..1];
    LastDotOf(raw, 204);
    assert raw[..204] == stem && raw[204..] == DOT_TXT;
    CutAscii(stem, 196);
    assert stem[..196] == CON + Spaces(193);
    SpacesTrimmed(CON, 193);
  }

  lemma {:induction false} LastDotOf(s: Name, i: nat)
    requires i < |s| && s[i] == 0x2E && forall j :: i < j < |s| ==> s[j] != 0x2E
    ensures LastDot(s) == i
  {
    if i == |s| - 1 {
    } else {
      LastDotOf(s[..|s| - 1], i);
    }
  }

  lemma ReservedIsRefused()
    ensures SafeName(CON + DOT_TXT) == BadName
  {
    var n := CON + DOT_TXT;
    PlainAsciiIsClean(n);
    assert TrimLeftSpace(n) == n && TrimRightSpace(n) == n && TrimDots(n) == n;
    assert n[1..] == [0x4F, 0x4E] + DOT_TXT && n[1..][1..] == [0x4E] + DOT_TXT && n[1..][1..][1..] == DOT_TXT;
    var n1, n2, n3 := n[1..], n[1..][1..], n[1..][1..][1..];
    assert n[0] == 0x43 && n1[0] == 0x4F && n2[0] == 0x4E && n3[0] == 0x2E;
    assert Head(n3) == [] && Head(n2) == [0x4E] + Head(n3) && Head(n1) == [0x4F] + Head(n2);
    assert Head(n) == [0x43] + Head(n1) == CON;
    assert Upper(CON) == Ascii("CON");
  }

  // The source's own form: the scan over the name's code points ...
  method ScanRunes(name: Name) returns (bad: bool)
    requires Valid(name)
    ensures bad == HasBadRune(name)
  {
    var rest := name;
    while rest != []
      invariant Valid(rest) && HasBadRune(name) == HasBadRune(rest)
      decreases |rest|
    {
      var (r, n) := DecodeFirst(rest);
      if BadRune(r) {
        return true;
      }
      rest := rest[n..];
    }
    return false;
  }

  // ... the shortening of the stem ...
  method Truncate(stem0: Name, ext0: Name) returns (name: Name)
    ensures name == Truncated(stem0, ext0)
  {
    var stem, ext := stem0, ext0;
    if |ext| > MAX_NAME_BYTES / 2 {
      stem, ext := stem + ext, [];
    }
    var budget := MAX_NAME_BYTES - |ext|;
    ghost var whole := stem;
    while |stem| > budget
      invariant CutTo(whole, budget) == CutTo(stem, budget)
      decreases |stem|
    {
      var (_, size) := DecodeLast(stem);
      stem := stem[..|stem| - size];
    }
    stem := TrimDots(stem);
    if stem == [] {
      return [];
    }
    return stem + ext;
  }

  // ... and the whole of it.
  method MakeSafe(raw: Name) returns (r: NameResult)
    ensures r == SafeName(raw)
  {
    var name := TrimSpace(raw);
    if name == [] || !Valid(name) || HasBadByte(name) {
      return BadName;
    }
    var bad := ScanRunes(name);
    if bad {
      return BadName;
    }
    name := TrimDots(name);
    if name == [] || Reserved(Head(name)) {
      return BadName;
    }
    r := FitAndCheck(name);
  }

  method FitAndCheck(n: Name) returns (r: NameResult)
    ensures r == if Fitted(n) == [] || !PlainComponent(Fitted(n)) then BadName else Safe(Fitted(n))
  {
    var name := n;
    var (stem, ext) := SplitExt(name);
    if |name| > MAX_NAME_BYTES {
      name := Truncate(stem, ext);
    }
    if name == [] || !PlainComponent(name) {
      return BadName;
    }
    return Safe(name);
  }
}
