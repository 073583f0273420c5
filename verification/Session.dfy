/** The receiving side of a session, as an object updated in place
    (host-agent/internal/transfer/session.go). */
module Sessions {
  import opened Prelude
  import opened SafeNames
  import opened Messages
  import opened Destination
  import opened Receive

  // A batch accepted and not yet complete, and the one file of it that is open.
  class Receiving {
    const id: string
    const names: seq<Name>
    const sizes: seq<int>
    const clip: bool
    var saved: seq<Name>
    var index: nat
    var open: bool
    var path: Name
    var written: int

    constructor (id: string, names: seq<Name>, sizes: seq<int>, clip: bool)
      ensures this.id == id && this.names == names && this.sizes == sizes && this.clip == clip
      ensures saved == [] && index == 0 && !open && path == [] && written == 0
    {
      this.id, this.names, this.sizes, this.clip := id, names, sizes, clip;
      saved, index, open, path, written := [], 0, false, [], 0;
    }

    function View(): Rx
      reads this
    {
      Rx(id, names, sizes, clip, saved, index, open, path, written)
    }
  }

  class Session {
    const dest: Dest
    var rx: Receiving?
    var pending: bool
    var failed: Option<Msg>
    var files: int
    var bytes: int
    var closed: bool

    function View(): State
      reads this, dest, rx
    {
      State(dest.folder, if rx == null then None else Some(rx.View()), pending, failed, files, bytes, closed)
    }

    ghost predicate Valid()
      reads this, dest, rx
    {
      Indexed(View())
    }

    constructor (dest: Dest)
      ensures this.dest == dest && rx == null && View() == Fresh(dest.folder) && Valid()
    {
      this.dest, rx, pending, failed, files, bytes, closed := dest, null, false, None, 0, 0, false;
    }

    method ClaimPending() returns (claimed: bool)
      requires Valid()
      modifies this`pending
      ensures Valid() && View() == Claimed(old(View())) && claimed == !Busy(old(View()))
    {
      var busy := closed || pending || rx != null;
      if !busy {
        pending := true;
      }
      claimed := !busy;
    }

    method ReleasePending()
      requires Valid()
      modifies this`pending
      ensures Valid() && View() == Released(old(View()))
    {
      pending := false;
    }

    method TakeFailure(fallback: Msg) returns (m: Msg)
      requires Valid()
      modifies this`failed
      ensures Valid() && View() == FailureTaken(old(View()))
      ensures m == TakenFrame(old(View()), fallback)
    {
      m := fallback;
      if failed.Some? {
        m := failed.value;
        failed := None;
      }
    }

    method WithinSessionLimits(count: int, size: int) returns (ok: bool)
      ensures ok == WithinLimits(View(), count, size)
    {
      ok := files + count <= MAX_SESSION_FILES && bytes + size <= MAX_SESSION_BYTES;
    }

    // openLocked. The batch must have a current file; on failure it is cleared.
    method OpenLocked(env: CreateEnv) returns (fail: Option<Msg>)
      requires Valid() && rx != null
      modifies this`rx, rx, dest
      ensures Valid() && (rx == null || rx == old(rx))
      ensures var r := CreateResult(old(dest.folder), old(rx.names[rx.index]), env);
              View() == OpenedWith(old(View()), r) && fail == OpenFailure(old(rx.id), r)
    {
      var r := dest.Create(rx.names[rx.index], env);
      if !r.Opened? {
        fail := OpenFailure(rx.id, r);
        rx := null;
        return;
      }
      rx.open, rx.path, rx.written := true, r.path, 0;
      fail := None;
    }

    method BeginBatch(id: string, names: seq<Name>, sizes: seq<int>, clip: bool, env: CreateEnv) returns (ok: bool)
      requires Valid() && names != [] && |names| == |sizes|
      modifies this`rx, this`failed, dest
      ensures Valid() && (rx == old(rx) || rx == null || fresh(rx))
      ensures var r := CreateResult(old(dest.folder), names[0], env);
              && View() == Begun(old(View()), id, names, sizes, clip, r)
              && ok == (CanBegin(old(View())) && r.Opened?)
    {
      if closed || rx != null {
        return false;
      }
      rx := new Receiving(id, names, sizes, clip);
      var fail := OpenLocked(env);
      if fail.Some? {
        failed := fail;
        return false;
      }
      return true;
    }

    method AbortLocked(removed: bool)
      requires Valid()
      modifies this`rx, dest
      ensures Valid() && rx == null && View() == Aborted(old(View()), removed)
    {
      if rx == null {
        return;
      }
      if rx.path != [] {
        dest.Abandon(rx.path, removed);
      }
      rx := null;
    }

    // handleChunk, up to where it lets go of the lock.
    method HandleChunk(data: seq<byte>, env: WriteEnv) returns (done: bool, frames: seq<Msg>)
      requires Valid()
      modifies this`rx, rx, dest
      ensures Valid() && (rx == null || rx == old(rx))
      ensures View() == Chunked(old(View()), data, env)
      ensures done == Completes(old(View()), data, env) && frames == ChunkFrames(old(View()), data, env)
    {
      done, frames := false, [];
      if rx == null || !rx.open {
        return;
      }
      if rx.written + |data| > rx.sizes[rx.index] {
        frames := [Fail(rx.id, "too-large")];
        AbortLocked(env.removed);
        return;
      }
      if !env.ok {
        frames := [Fail(rx.id, Reason(env.diskFull))];
        dest.folder := Appended(dest.folder, Part(rx.path), data[..Min(env.taken, |data|)]);
        AbortLocked(env.removed);
        return;
      }
      dest.folder := Appended(dest.folder, Part(rx.path), data);
      rx.written := rx.written + |data|;
      if env.due {
        frames := [BLANK.(t := "f-progress", id := rx.id, index := rx.index, sent := rx.written)];
      }
      done := rx.written == rx.sizes[rx.index];
    }

    // finishFile's bookkeeping; the next file of the batch is not opened yet.
    method CountFile() returns (pasted: seq<Name>)
      requires Valid() && rx != null
      modifies this, rx
      ensures Valid() && (rx == null || rx == old(rx)) && View() == Counted(old(View()))
      ensures pasted == if LastOfBatch(old(rx.View())) && old(rx.clip) then old(rx.saved + [rx.path]) else []
    {
      pasted := [];
      rx.open := false;
      rx.saved := rx.saved + [rx.path];
      files := files + 1;
      bytes := bytes + rx.written;
      if rx.index + 1 >= |rx.names| {
        if rx.clip {
          pasted := rx.saved;
        }
        rx := null;
      } else {
        rx.index := rx.index + 1;
      }
    }

    // The next file of the batch, if there is one, is opened.
    method OpenNext(cenv: CreateEnv) returns (fail: Option<Msg>, ghost next: Created)
      requires Valid()
      modifies this`rx, rx, dest
      ensures Valid() && (rx == null || rx == old(rx))
      ensures next == NextFor(old(View()), cenv) && View() == Moved(old(View()), next)
      ensures fail == if old(rx) == null then None else OpenFailure(old(rx.id), next)
    {
      fail, next := None, TooMany;
      if rx != null {
        next := NextFor(View(), cenv);
        fail := OpenLocked(cenv);
      }
    }

    // finishFile once the file is under its final name.
    method Advance(cenv: CreateEnv) returns (frames: seq<Msg>, pasted: seq<Name>, ghost next: Created)
      requires Valid() && rx != null
      modifies this, rx, dest
      ensures Valid() && (rx == null || rx == old(rx))
      ensures next == NextFor(Counted(old(View())), cenv) && View() == Moved(Counted(old(View())), next)
      ensures frames == DoneFrames(old(rx.View()), next)
      ensures pasted == if LastOfBatch(old(rx.View())) && old(rx.clip) then old(rx.saved + [rx.path]) else []
    {
      var id, index := rx.id, rx.index;
      pasted := CountFile();
      var fail;
      fail, next := OpenNext(cenv);
      frames := [BLANK.(t := "f-done", id := id, index := index)];
      if fail.Some? {
        frames := frames + [fail.value];
      }
    }

    method FinishFile(env: FinishEnv, cenv: CreateEnv)
      returns (frames: seq<Msg>, pasted: seq<Name>, ghost next: Created)
      requires Valid()
      modifies this, rx, dest
      ensures Valid() && (rx == null || rx == old(rx))
      ensures next == NextCreated(old(View()), env, cenv)
      ensures View() == Finished(old(View()), env, next)
      ensures frames == FinishFrames(old(View()), env, next) && pasted == Pasted(old(View()), env)
    {
      frames, pasted, next := [], [], TooMany;
      if rx == null || !rx.open {
        return;
      }
      var finished := dest.Finish(rx.path, env.ok);
      if finished {
        frames, pasted, next := Advance(cenv);
        return;
      }
      frames := [Fail(rx.id, Reason(env.diskFull))];
      AbortLocked(env.removed);
    }

    method Abort(id: string, removed: bool)
      requires Valid()
      modifies this`rx, dest
      ensures Valid() && (rx == null || rx == old(rx)) && View() == Cancelled(old(View()), id, removed)
      ensures var ended := old(rx) != null && (id == "" || old(rx.id) == id);
              && rx == (if ended then null else old(rx))
              && dest.folder == if ended && removed && old(rx.path) != [] then old(dest.folder) - {Part(old(rx.path))}
                                else old(dest.folder)
    {
      if rx != null && (id == "" || rx.id == id) {
        AbortLocked(removed);
      }
    }

    method Close(removed: bool)
      requires Valid()
      modifies this`rx, this`closed, dest
      ensures Valid() && (rx == null || rx == old(rx)) && View() == Receive.Closed(old(View()), removed)
    {
      if closed {
        return;
      }
      closed := true;
      AbortLocked(removed);
    }
  }
}
