/** Which file names are refused, and what is left of one that is not, spelled out
    (host-agent/internal/transfer/name.go). */
module NameFacts {
  import opened Prelude
  import opened Utf8
  import opened SafeNames

  // --- What no name contains ---

  // Control characters, and "*/:<>?\|.
  predicate Forbidden(b: byte)
  {
    b < 0x20 || b in {0x22, 0x2A, 0x2F, 0x3A, 0x3C, 0x3E, 0x3F, 0x5C, 0x7C, 0x7F}
  }

  // The marks that turn the direction of text around.
  predicate TurnsText(r: int)
  {
    r in {0x200E, 0x200F, 0x202A, 0x202B, 0x202C, 0x202D, 0x202E, 0x2066, 0x2067, 0x2068, 0x2069}
  }

  // In valid text, a byte of ASCII is a code point by itself.
  lemma {:induction false} AsciiIsARune(s: Name, i: nat)
    requires Valid(s) && !HasBadRune(s) && i < |s| && s[i] < 0x80
    ensures !BadRune(s[i])
    decreases |s|
  {
    var n := FirstLen(s);
    if i < n {
      FirstIsAscii(s, i);
    } else {
      AsciiIsARune(s[n..], i - n);
    }
  }

  lemma FirstIsAscii(s: Name, i: nat)
    requires i < FirstLen(s) && s[i] < 0x80
    ensures i == 0 && FirstLen(s) == 1 && DecodeFirst(s) == (s[0], 1)
  {
  }

  lemma NoForbiddenByte(raw: Name, i: nat)
    requires SafeName(raw).Safe? && i < |SafeName(raw).name|
    ensures !Forbidden(SafeName(raw).name[i])
  {
    SafeNameIsSound(raw);
    var n := SafeName(raw).name;
    if n[i] < 0x80 {
      AsciiIsARune(n, i);
    }
    assert !BadByte(n[i]);
  }

  lemma NothingTurnsText(raw: Name, k: nat)
    requires SafeName(raw).Safe? && k < |SafeName(raw).name|
    requires Valid(SafeName(raw).name[..k]) && Valid(SafeName(raw).name[k..])
    ensures !TurnsText(DecodeFirst(SafeName(raw).name[k..]).0)
  {
    SafeNameIsSound(raw);
    CleanParts(SafeName(raw).name, k);
  }

  // --- Names of devices ---

  const DEVICES: seq<string> :=
    ["CON", "PRN", "AUX", "NUL", "COM1", "COM2", "COM3", "COM4", "COM5", "COM6", "COM7", "COM8", "COM9",
     "LPT1", "LPT2", "LPT3", "LPT4", "LPT5", "LPT6", "LPT7", "LPT8", "LPT9"]

  function Bytes(s: string): Name { seq(|s|, i requires 0 <= i < |s| => if s[i] as int < 0x80 then s[i] as int else 0) }

  // A device, in whatever case, with whatever comes after the first dot.
  ghost predicate IsDevice(n: Name) { exists i :: 0 <= i < |DEVICES| && Upper(Head(n)) == Bytes(DEVICES[i]) }

  lemma ReservedIsDevice(n: Name)
    ensures Reserved(Head(n)) <==> IsDevice(n)
  {
    if Reserved(Head(n)) {
      var i := DeviceOf(Head(n));
    }
    forall i | 0 <= i < |DEVICES| && Upper(Head(n)) == Bytes(DEVICES[i])
      ensures Reserved(Head(n))
    {
      DeviceIsReserved(Head(n), i);
    }
  }

  lemma DeviceOf(head: Name) returns (i: nat)
    requires Reserved(head)
    ensures i < |DEVICES| && Upper(head) == Bytes(DEVICES[i])
  {
    var u := Upper(head);
    if |u| == 4 {
      i := PortOf(u);
    } else if u == Ascii("CON") {
      i := 0;
    } else if u == Ascii("PRN") {
      i := 1;
    } else if u == Ascii("AUX") {
      i := 2;
    } else {
      i := 3;
    }
  }

  lemma PortOf(u: Name) returns (i: nat)
    requires |u| == 4 && (u[..3] == Ascii("COM") || u[..3] == Ascii("LPT")) && 0x31 <= u[3] <= 0x39
    ensures i < |DEVICES| && u == Bytes(DEVICES[i])
  {
    i := u[3] - 0x31 + if u[..3] == Ascii("COM") then 4 else 13;
    assert u == u[..3] + [u[3]];
  }

  lemma DeviceIsReserved(head: Name, i: nat)
    requires i < |DEVICES| && Upper(head) == Bytes(DEVICES[i])
    ensures Reserved(head)
  {
    if i >= 4 {
      assert Upper(head)[..3] == if i < 13 then Ascii("COM") else Ascii("LPT");
    }
  }

  // --- What is refused ---

  ghost predicate HasForbidden(s: Name) { exists i :: 0 <= i < |s| && Forbidden(s[i]) }

  lemma {:induction false} AsciiRunes(s: Name)
    requires forall i :: 0 <= i < |s| ==> s[i] < 0x80
    ensures Valid(s) && (HasBadByte(s) || HasBadRune(s) <==> HasForbidden(s))
  {
    if s == [] {
    } else {
      AsciiRunes(s[1..]);
      assert DecodeFirst(s) == (s[0], 1);
      if HasForbidden(s) {
        var i :| 0 <= i < |s| && Forbidden(s[i]);
        assert i > 0 ==> s[1..][i - 1] == s[i];
      }
      if HasForbidden(s[1..]) {
        var i :| 0 <= i < |s[1..]| && Forbidden(s[1..][i]);
        assert s[i + 1] == s[1..][i];
      }
      if HasBadByte(s) {
        var i :| 0 <= i < |s| && BadByte(s[i]);
        assert Forbidden(s[i]);
      }
      if HasBadByte(s[1..]) {
        var i :| 0 <= i < |s[1..]| && BadByte(s[1..][i]);
        assert s[i + 1] == s[1..][i];
      }
    }
  }

  // A name of at most 200 bytes of ASCII is refused exactly if, white space trimmed, it
  // contains a forbidden byte, or, dots and spaces trimmed too, nothing is left of it or
  // it names a device.
  lemma RefusedExactly(raw: Name)
    requires |raw| <= MAX_NAME_BYTES && forall i :: 0 <= i < |raw| ==> raw[i] < 0x80
    ensures SafeName(raw).BadName?
            <==> HasForbidden(TrimSpace(raw)) || Stripped(raw) == [] || IsDevice(Stripped(raw))
  {
    TrimmedIsPart(raw);
    AsciiRunes(TrimSpace(raw));
    ReservedIsDevice(Stripped(raw));
    LastCheckNeverFires(raw);
    StrippedIsShorter(raw);
  }

  lemma TrimmedIsPart(s: Name)
    requires forall i :: 0 <= i < |s| ==> s[i] < 0x80
    ensures forall i :: 0 <= i < |TrimSpace(s)| ==> TrimSpace(s)[i] < 0x80
    ensures TrimSpace(s) == [] ==> Stripped(s) == []
  {
    LeftTrimmedIsEnd(s);
    var k := |s| - |TrimLeftSpace(s)|;
    forall i | 0 <= i < |TrimSpace(s)|
      ensures TrimSpace(s)[i] < 0x80
    {
      assert TrimSpace(s)[i] == TrimLeftSpace(s)[i] == s[k + i];
    }
  }

  lemma {:induction false} LeftTrimmedIsEnd(s: Name)
    ensures |TrimLeftSpace(s)| <= |s| && TrimLeftSpace(s) == s[|s| - |TrimLeftSpace(s)|..]
    decreases |s|
  {
    if s == [] || !IsSpace(DecodeFirst(s).0) {
    } else {
      LeftTrimmedIsEnd(s[DecodeFirst(s).1..]);
    }
  }

  // No name that needed no shortening is that of a device.
  lemma AgreedIsNoDevice(raw: Name)
    requires |raw| <= MAX_NAME_BYTES && SafeName(raw).Safe?
    ensures !IsDevice(SafeName(raw).name)
  {
    ShortNameTwice(raw);
    ReservedIsDevice(Stripped(raw));
  }

  // --- Names that are too long ---

  lemma SafeIsFitted(raw: Name)
    requires SafeName(raw).Safe?
    ensures SafeName(raw).name == Fitted(Stripped(raw)) != [] && Sound(Stripped(raw))
  {
    LastCheckNeverFires(raw);
    CheckedIsSound(raw);
  }

  lemma SplitIsClean(n: Name)
    requires Sound(n)
    ensures |SplitExt(n).1| <= 100 ==> Clean(SplitExt(n).0)
  {
    PartsAreClean(n);
  }

  lemma CutIsLong(s: Name, n: nat)
    requires Clean(s) && n <= 100 && |s| + n > MAX_NAME_BYTES
    ensures |CutTo(s, MAX_NAME_BYTES - n)| + n > 196
  {
    CutToClean(s, MAX_NAME_BYTES - n);
  }

  lemma FittedIs(n: Name)
    requires |n| > MAX_NAME_BYTES
    ensures |SplitExt(n).1| <= 100 ==> Fitted(n) == Shortened(SplitExt(n).0, SplitExt(n).1)
    ensures |SplitExt(n).1| > 100 ==> Fitted(n) == Shortened(n, [])
  {
  }

  lemma ShortenedIs(s: Name, e: Name)
    requires |e| <= 100 && Shortened(s, e) != []
    ensures var cut := CutTo(s, MAX_NAME_BYTES - |e|);
            Shortened(s, e) == TrimDots(cut) + e && TrimDots(cut) != [] && TrimDots(cut) <= cut <= s
  {
  }

  lemma CutOf(stem: Name, ext: Name) returns (cut: Name)
    requires Clean(stem) && |ext| <= 100 && |stem| + |ext| > MAX_NAME_BYTES && Shortened(stem, ext) != []
    ensures Shortened(stem, ext) == TrimDots(cut) + ext && TrimDots(cut) != []
    ensures cut <= stem && 196 < |cut| + |ext| <= 200
  {
    ShortenedIs(stem, ext);
    CutIsLong(stem, |ext|);
    cut := CutTo(stem, MAX_NAME_BYTES - |ext|);
  }

  // A name too long keeps its extension, if that is of at most 100 bytes, and before it a
  // beginning of the rest; without such an extension it is a beginning of the whole. No
  // more is cut than has to be, but for part of a code point and for the dots and spaces
  // that would then be last.
  lemma LongNameKeepsExtension(raw: Name) returns (cut: Name)
    requires SafeName(raw).Safe? && |Stripped(raw)| > MAX_NAME_BYTES
    ensures var n := Stripped(raw);
            var ext := if |SplitExt(n).1| <= 100 then SplitExt(n).1 else [];
            var stem := if |SplitExt(n).1| <= 100 then SplitExt(n).0 else n;
            && SafeName(raw).name == TrimDots(cut) + ext && TrimDots(cut) != []
            && cut <= stem && 196 < |cut| + |ext| <= 200
  {
    var n := Stripped(raw);
    SafeIsFitted(raw);
    FittedIs(n);
    SplitIsClean(n);
    if |SplitExt(n).1| <= 100 {
      cut := CutOf(SplitExt(n).0, SplitExt(n).1);
    } else {
      cut := CutOf(n, []);
    }
  }
}
