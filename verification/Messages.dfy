/** Control frames of the "file" channel, and the limits an offer is held to
    (host-agent/internal/transfer/message.go). */
module Messages {
  import opened Prelude
  import opened SafeNames

  const MAX_FILE_BYTES: int := 0x2000_0000
  const MAX_BATCH_FILES: int := 32
  const MAX_BATCH_BYTES: int := 0x4000_0000
  const MAX_SESSION_FILES: int := 200
  const MAX_SESSION_BYTES: int := 0x1_0000_0000
  const CHUNK_BYTES: int := 32768

  datatype FileMeta = FileMeta(name: Name, size: int)

  datatype Msg = Msg(t: string, id: string, files: seq<FileMeta>, index: int, size: int, sent: int,
                     offset: int, dir: string, reason: string, clip: bool)

  const BLANK: Msg := Msg("", "", [], 0, 0, 0, 0, "", "", false)

  function Reject(id: string, reason: string): Msg { BLANK.(t := "f-reject", id := id, reason := reason) }

  function Fail(id: string, reason: string): Msg { BLANK.(t := "f-error", id := id, reason := reason) }

  function Sizes(files: seq<FileMeta>): (s: seq<int>)
    ensures |s| == |files| && forall i :: 0 <= i < |files| ==> s[i] == files[i].size
  {
    seq(|files|, i requires 0 <= i < |files| => files[i].size)
  }

  method TotalSize(m: Msg) returns (total: int)
    ensures total == Sum(Sizes(m.files))
  {
    total := 0;
    var i := 0;
    while i < |m.files|
      invariant 0 <= i <= |m.files| && total == Sum(Sizes(m.files)[..i])
    {
      assert Sizes(m.files)[..i + 1][..i] == Sizes(m.files)[..i];
      total := total + m.files[i].size;
      i := i + 1;
    }
    assert Sizes(m.files)[..i] == Sizes(m.files);
  }

  predicate SaneFile(f: FileMeta) { f.name != [] && 0 < f.size <= MAX_FILE_BYTES }

  predicate Known(t: string)
  {
    t in {"f-request", "f-accept", "f-reject", "f-complete", "f-done", "f-progress", "f-cancel", "f-error"}
  }

  // Msg.validate: whether a parsed frame is well formed for its type. An unknown
  // type is let through.
  predicate WellFormed(m: Msg)
  {
    if m.t == "" then false
    else if m.t == "f-offer" then
      && m.id != "" && m.offset == 0
      && (m.dir == "up" || m.dir == "down")
      && 0 < |m.files| <= MAX_BATCH_FILES
      && (forall i :: 0 <= i < |m.files| ==> SaneFile(m.files[i]))
      && Sum(Sizes(m.files)) <= MAX_BATCH_BYTES
    else if Known(m.t) then m.id != "" && m.size >= 0 && m.sent >= 0 && m.index >= 0
    else true
  }

  // The frames the session decides as incoming batches.
  predicate IsUpload(m: Msg) { m.t == "f-offer" && m.dir == "up" && WellFormed(m) }

  lemma {:induction false} SumAtMost(s: seq<int>, hi: int)
    requires forall i :: 0 <= i < |s| ==> s[i] <= hi
    ensures Sum(s) <= |s| * hi
  {
    if s == [] {
    } else {
      SumAtMost(s[..|s| - 1], hi);
      Distribute(|s| - 1, 1, hi);
    }
  }

  // By the time the sizes of an offer are added up, each has been checked, so the
  // 64-bit sum cannot overflow: it is at most 16 GiB.
  lemma TotalFitsInt64(files: seq<FileMeta>)
    requires |files| <= MAX_BATCH_FILES && forall i :: 0 <= i < |files| ==> SaneFile(files[i])
    ensures 0 <= Sum(Sizes(files)) <= 0x4_0000_0000 < 0x7FFF_FFFF_FFFF_FFFF
  {
    SumAtMost(Sizes(files), MAX_FILE_BYTES);
    SumNotNegative(Sizes(files));
    MulMonotone(|files|, MAX_BATCH_FILES, MAX_FILE_BYTES);
  }
}
