/** What each critical section of the receiving side of a session does to its state
    (host-agent/internal/transfer/session.go). A section runs under the session's
    lock from beginning to end; what the operating system answers is a parameter. */
module Receive {
  import opened Prelude
  import opened SafeNames
  import opened Messages
  import opened Destination

  // The batch being written. `open` is whether its current file is open.
  datatype Rx = Rx(id: string, names: seq<Name>, sizes: seq<int>, clip: bool, saved: seq<Name>,
                   index: nat, open: bool, path: Name, written: int)

  datatype State = State(folder: Folder, rx: Option<Rx>, pending: bool, failed: Option<Msg>,
                         files: int, bytes: int, closed: bool)

  function Fresh(folder: Folder): State { State(folder, None, false, None, 0, 0, false) }

  // The index of a batch stays within it.
  ghost predicate Indexed(s: State)
  {
    s.rx.Some? ==> s.rx.value.index < |s.rx.value.names| == |s.rx.value.sizes|
  }

  // claimPending, which refuses as busy, and releasePending.
  predicate Busy(s: State) { s.closed || s.pending || s.rx.Some? }

  function Claimed(s: State): State { if Busy(s) then s else s.(pending := true) }

  function Released(s: State): State { s.(pending := false) }

  predicate WithinLimits(s: State, count: int, size: int)
  {
    s.files + count <= MAX_SESSION_FILES && s.bytes + size <= MAX_SESSION_BYTES
  }

  // openLocked, given what Create answered, and the frame a failure leaves.
  function OpenedWith(s: State, r: Created): State
    requires s.rx.Some?
  {
    if r.Opened? then
      s.(folder := AfterCreate(s.folder, r), rx := Some(s.rx.value.(open := true, path := r.path, written := 0)))
    else s.(rx := None)
  }

  function OpenFailure(id: string, r: Created): Option<Msg>
  {
    match r
    case Opened(_) => None
    case NotSafe => Some(Fail(id, "bad-name"))
    case _ => Some(Fail(id, "io"))
  }

  // beginBatch.
  predicate CanBegin(s: State) { !s.closed && s.rx.None? }

  function Begun(s: State, id: string, names: seq<Name>, sizes: seq<int>, clip: bool, r: Created): State
  {
    if !CanBegin(s) then s
    else
      var s1 := s.(rx := Some(Rx(id, names, sizes, clip, [], 0, false, [], 0)));
      if r.Opened? then OpenedWith(s1, r) else OpenedWith(s1, r).(failed := OpenFailure(id, r))
  }

  // takeFailure, and the frame it returns.
  function FailureTaken(s: State): State { s.(failed := None) }

  function TakenFrame(s: State, fallback: Msg): Msg { if s.failed.Some? then s.failed.value else fallback }

  // abortLocked.
  function Aborted(s: State, removed: bool): State
  {
    if s.rx.None? then s
    else
      s.(folder := if s.rx.value.path == [] then s.folder else AfterAbandon(s.folder, s.rx.value.path, removed),
         rx := None)
  }

  // What the operating system does with one write: it takes all of it, or fails
  // after taking some; whether it then lets the partial file be removed; and
  // whether a progress frame is due.
  datatype WriteEnv = WriteEnv(ok: bool, taken: nat, diskFull: bool, removed: bool, due: bool)

  const WRITE_OK: WriteEnv := WriteEnv(true, 0, false, true, false)

  function Appended(folder: Folder, part: Name, data: seq<byte>): Folder
  {
    if part in folder then folder[part := folder[part] + data] else folder
  }

  predicate Receiving?(s: State) { s.rx.Some? && s.rx.value.open }

  predicate TooLong(s: State, data: seq<byte>)
    requires Indexed(s) && Receiving?(s)
  {
    s.rx.value.written + |data| > s.rx.value.sizes[s.rx.value.index]
  }

  // handleChunk's critical section; Completes says that finishFile is called next.
  function Chunked(s: State, data: seq<byte>, env: WriteEnv): State
    requires Indexed(s)
  {
    if !Receiving?(s) then s
    else if TooLong(s, data) then Aborted(s, env.removed)
    else
      var rx := s.rx.value;
      if !env.ok then
        Aborted(s.(folder := Appended(s.folder, Part(rx.path), data[..Min(env.taken, |data|)])), env.removed)
      else
        s.(folder := Appended(s.folder, Part(rx.path), data), rx := Some(rx.(written := rx.written + |data|)))
  }

  predicate Completes(s: State, data: seq<byte>, env: WriteEnv)
    requires Indexed(s)
  {
    && Receiving?(s) && env.ok
    && s.rx.value.written + |data| == s.rx.value.sizes[s.rx.value.index]
  }

  function Reason(diskFull: bool): string { if diskFull then "no-space" else "io" }

  function ChunkFrames(s: State, data: seq<byte>, env: WriteEnv): seq<Msg>
    requires Indexed(s)
  {
    if !Receiving?(s) then []
    else if TooLong(s, data) then [Fail(s.rx.value.id, "too-large")]
    else if !env.ok then [Fail(s.rx.value.id, Reason(env.diskFull))]
    else if env.due then
      [BLANK.(t := "f-progress", id := s.rx.value.id, index := s.rx.value.index, sent := s.rx.value.written + |data|)]
    else []
  }

  // What the operating system does while a file is completed: whether it can be
  // (synced, closed and renamed), and if not, whether it can be removed.
  datatype FinishEnv = FinishEnv(ok: bool, diskFull: bool, removed: bool)

  const FINISH_OK: FinishEnv := FinishEnv(true, false, true)

  predicate CanFinish(s: State, env: FinishEnv) { Receiving?(s) && Finishes(s.folder, s.rx.value.path, env.ok) }

  predicate LastOfBatch(rx: Rx) { rx.index + 1 >= |rx.names| }

  // finishFile's bookkeeping: the file counted, and the batch moved on or over.
  function Counted(s: State): State
    requires s.rx.Some?
  {
    var rx := s.rx.value;
    s.(files := s.files + 1, bytes := s.bytes + rx.written,
       rx := if LastOfBatch(rx) then None
             else Some(rx.(open := false, saved := rx.saved + [rx.path], index := rx.index + 1)))
  }

  // The first half of finishFile: the file under its final name, and counted.
  function Saved(s: State): State
    requires Receiving?(s)
  {
    Counted(s.(folder := AfterFinish(s.folder, s.rx.value.path, true)))
  }

  // The next file of the batch, if there is one, given what Create answers for it.
  function Moved(s: State, next: Created): State { if s.rx.None? then s else OpenedWith(s, next) }

  // finishFile, given what Create answers for the next file of the batch.
  function Finished(s: State, env: FinishEnv, next: Created): State
  {
    if !Receiving?(s) then s
    else if CanFinish(s, env) then Moved(Saved(s), next)
    else Aborted(s, env.removed)
  }

  function DoneFrames(rx: Rx, next: Created): seq<Msg>
  {
    var done := BLANK.(t := "f-done", id := rx.id, index := rx.index);
    if LastOfBatch(rx) || next.Opened? then [done] else [done, OpenFailure(rx.id, next).value]
  }

  function FinishFrames(s: State, env: FinishEnv, next: Created): seq<Msg>
  {
    if !Receiving?(s) then []
    else if CanFinish(s, env) then DoneFrames(s.rx.value, next)
    else [Fail(s.rx.value.id, Reason(env.diskFull))]
  }

  // The paths handed to the clipboard once a pasted batch is all saved.
  function Pasted(s: State, env: FinishEnv): seq<Name>
  {
    if CanFinish(s, env) && LastOfBatch(s.rx.value) && s.rx.value.clip then s.rx.value.saved + [s.rx.value.path] else []
  }

  // What Create answers for the file that comes after the one just counted.
  function NextFor(s: State, cenv: CreateEnv): Created
    requires Indexed(s)
  {
    if s.rx.None? then TooMany else CreateResult(s.folder, s.rx.value.names[s.rx.value.index], cenv)
  }

  function NextCreated(s: State, env: FinishEnv, cenv: CreateEnv): Created
    requires Indexed(s)
  {
    if CanFinish(s, env) then NextFor(Saved(s), cenv) else TooMany
  }

  // abort, for the batch of the given id or, with none, for any.
  function Cancelled(s: State, id: string, removed: bool): State
  {
    if s.rx.Some? && (id == "" || s.rx.value.id == id) then Aborted(s, removed) else s
  }

  function Closed(s: State, removed: bool): State
  {
    if s.closed then s else Aborted(s.(closed := true), removed)
  }
}
