/** Every interleaving of the receiving side (host-agent/internal/transfer/session.go):
    one goroutine per offer, one thread that delivers frames, and Close. One step is
    one critical section, so other steps may come between the sections of a goroutine,
    and between the chunk that completes a file and the call that finishes it. */
module ReceiveRuns {
  import opened Prelude
  import opened SafeNames
  import opened Messages
  import opened Destination
  import opened Receive
  import opened Runs

  // Where the goroutine of one offer is.
  datatype Offer =
    | Spawned(m: Msg)                      // before claimPending
    | Holding(m: Msg)                      // claimed; names and limits not looked at yet
    | Asked(m: Msg, names: seq<Name>)      // within the limits, the operator being asked
    | Refused(m: Msg)                      // beginBatch said no; takeFailure is next
    | Leaving                              // releasePending is next

  // A file saved: which one of which batch, the name agreed to, the final one, the
  // declared size, and the chunks delivered while it was open.
  datatype Record = Record(id: string, index: nat, name: Name, path: Name, size: int, chunks: seq<seq<byte>>)

  // `gap` is whether the delivery thread is about to call finishFile. The rest is
  // history: the folder at the start, the chunks delivered since the current file
  // was opened, the files saved, and the partial files that could not be removed.
  datatype System = System(s: State, offers: map<nat, Offer>, gap: bool,
                           before: Folder, got: seq<seq<byte>>, log: seq<Record>, stuck: set<Name>)

  datatype Action =
    | Spawn(g: nat, m: Msg) | Claim(g: nat) | Check(g: nat) | Decline(g: nat)
    | Begin(g: nat, cenv: CreateEnv) | Take(g: nat) | Release(g: nat)
    | Chunk(data: seq<byte>, wenv: WriteEnv) | Finish(fenv: FinishEnv, nenv: CreateEnv)
    | Cancel(id: string, removed: bool) | Close(removed: bool)

  function Start(folder: Folder): System { System(Fresh(folder), map[], false, folder, [], [], {}) }

  predicate AllSafe(files: seq<FileMeta>)
  {
    files == [] || (AllSafe(files[..|files| - 1]) && SafeName(files[|files| - 1].name).Safe?)
  }

  function Names(files: seq<FileMeta>): (names: seq<Name>)
    requires AllSafe(files)
    ensures |names| == |files|
  {
    if files == [] then [] else Names(files[..|files| - 1]) + [SafeName(files[|files| - 1].name).name]
  }

  // A batch with one bad name in it is not safe.
  lemma {:induction false} OneBadName(files: seq<FileMeta>, i: nat)
    requires i < |files| && SafeName(files[i].name).BadName?
    ensures !AllSafe(files)
  {
    if i == |files| - 1 {
    } else {
      OneBadName(files[..|files| - 1], i);
    }
  }

  lemma OneMoreSafe(files: seq<FileMeta>, i: nat, safe: NameResult)
    requires i < |files| && AllSafe(files[..i]) && safe == SafeName(files[i].name) && safe.Safe?
    ensures AllSafe(files[..i + 1]) && Names(files[..i + 1]) == Names(files[..i]) + [safe.name]
  {
    assert files[..i + 1][..i] == files[..i];
  }

  // offered's own loop: every name made safe, or none.
  method MakeAllSafe(files: seq<FileMeta>) returns (names: Option<seq<Name>>)
    ensures names.Some? <==> AllSafe(files)
    ensures AllSafe(files) ==> names == Some(Names(files))
  {
    var done: seq<Name> := [];
    for i := 0 to |files|
      invariant AllSafe(files[..i]) && done == Names(files[..i])
    {
      var safe := MakeSafe(files[i].name);
      if safe.BadName? {
        OneBadName(files, i);
        return None;
      }
      OneMoreSafe(files, i, safe);
      done := done + [safe.name];
    }
    assert files[..|files|] == files;
    return Some(done);
  }

  function OpenPart(s: State): set<Name> { if Receiving?(s) then {Part(s.rx.value.path)} else {} }

  // The partial file that was open in s and is still there with no batch left.
  function StuckBy(s: State, t: State): set<Name> { if t.rx.None? then OpenPart(s) * t.folder.Keys else {} }

  function Moving(x: System, t: State): System { x.(s := t, stuck := x.stuck + StuckBy(x.s, t)) }

  function BeginStep(x: System, g: nat, r: Created): System
    requires g in x.offers && x.offers[g].Asked?
  {
    var o := x.offers[g];
    var t := Begun(x.s, o.m.id, o.names, Sizes(o.m.files), o.m.clip, r);
    if CanBegin(x.s) && r.Opened? then x.(s := t, offers := x.offers[g := Leaving], got := [])
    else x.(s := t, offers := x.offers[g := Refused(o.m)])
  }

  function ChunkStep(x: System, data: seq<byte>, env: WriteEnv): System
    requires Indexed(x.s)
  {
    Moving(x, Chunked(x.s, data, env)).(
      gap := Completes(x.s, data, env), got := if Receiving?(x.s) then x.got + [data] else x.got)
  }

  function RecordOf(rx: Rx, got: seq<seq<byte>>): Record
    requires rx.index < |rx.names| == |rx.sizes|
  {
    Record(rx.id, rx.index, rx.names[rx.index], rx.path, rx.sizes[rx.index], got)
  }

  function FinishStep(x: System, env: FinishEnv, next: Created): System
    requires Indexed(x.s)
  {
    Moving(x, Finished(x.s, env, next)).(
      gap := false, got := [],
      log := if CanFinish(x.s, env) then x.log + [RecordOf(x.s.rx.value, x.got)] else x.log)
  }

  predicate OffersStep?(a: Action)
  {
    a.Spawn? || a.Claim? || a.Check? || a.Decline? || a.Take? || a.Release?
  }

  // The sections that touch neither the disk nor the batch.
  function OffersStep(x: System, a: Action): System
    requires OffersStep?(a)
  {
    match a
    case Spawn(g, m) =>
      if !x.gap && g !in x.offers && IsUpload(m) then x.(offers := x.offers[g := Spawned(m)]) else x
    case Claim(g) =>
      if g !in x.offers || !x.offers[g].Spawned? then x
      else if Busy(x.s) then x.(offers := x.offers - {g})
      else x.(s := Claimed(x.s), offers := x.offers[g := Holding(x.offers[g].m)])
    case Check(g) =>
      if g !in x.offers || !x.offers[g].Holding? then x
      else
        var m := x.offers[g].m;
        if AllSafe(m.files) && WithinLimits(x.s, |m.files|, Sum(Sizes(m.files))) then
          x.(offers := x.offers[g := Asked(m, Names(m.files))])
        else x.(offers := x.offers[g := Leaving])
    case Decline(g) =>
      if g !in x.offers || !x.offers[g].Asked? then x else x.(offers := x.offers[g := Leaving])
    case Take(g) =>
      if g !in x.offers || !x.offers[g].Refused? then x
      else x.(s := FailureTaken(x.s), offers := x.offers[g := Leaving])
    case Release(g) =>
      if g !in x.offers || !x.offers[g].Leaving? then x
      else x.(s := Released(x.s), offers := x.offers - {g})
  }

  // One step. A step that is not possible in x leaves it as it is: the delivery
  // thread does nothing else before it has finished the file it completed.
  function Step(x: System, a: Action): System
    requires Indexed(x.s)
  {
    match a
    case Begin(g, cenv) =>
      if g !in x.offers || !x.offers[g].Asked? || x.offers[g].names == [] then x
      else BeginStep(x, g, CreateResult(x.s.folder, x.offers[g].names[0], cenv))
    case Chunk(data, env) => if x.gap then x else ChunkStep(x, data, env)
    case Finish(env, cenv) => if x.gap then FinishStep(x, env, NextCreated(x.s, env, cenv)) else x
    case Cancel(id, removed) => if x.gap then x else Moving(x, Cancelled(x.s, id, removed))
    case Close(removed) => Moving(x, Closed(x.s, removed))
    case _ => OffersStep(x, a)
  }

  // --- What every step keeps ---

  predicate InSection(o: Offer) { !o.Spawned? }

  ghost predicate OfferFits(x: System, o: Offer)
  {
    match o
    case Spawned(m) => IsUpload(m)
    case Holding(m) => IsUpload(m) && x.s.rx.None? && x.s.failed.None?
    case Asked(m, names) =>
      && IsUpload(m) && AllSafe(m.files) && names == Names(m.files)
      && x.s.rx.None? && x.s.failed.None?
      && WithinLimits(x.s, |m.files|, Sum(Sizes(m.files)))
    case Refused(m) =>
      && x.s.rx.None?
      && (x.s.failed.None? ==> x.s.closed)
      && (x.s.failed.Some? ==> x.s.failed.value in {Fail(m.id, "io"), Fail(m.id, "bad-name")})
    case Leaving => x.s.failed.None?
  }

  // The offers: at most one is past claimPending, exactly while `pending` is set.
  ghost predicate Orderly(x: System)
  {
    && (forall g :: g in x.offers ==> OfferFits(x, x.offers[g]))
    && (forall g, h :: g in x.offers && h in x.offers && InSection(x.offers[g]) && InSection(x.offers[h]) ==> g == h)
    && (x.s.pending <==> exists g :: g in x.offers && InSection(x.offers[g]))
    && (!x.s.pending ==> x.s.failed.None?)
  }

  // The batch: always with a file open, never longer than declared, complete
  // exactly in the gap, and gone once the session is closed.
  ghost predicate Sane(x: System)
  {
    && Indexed(x.s)
    && (x.s.closed ==> x.s.rx.None?)
    && (x.gap && x.s.rx.None? ==> x.s.closed)
    && (x.s.rx.Some? ==>
          var rx := x.s.rx.value;
          && rx.open && rx.path != []
          && (forall i :: 0 <= i < |rx.sizes| ==> rx.sizes[i] > 0)
          && 0 <= rx.written <= rx.sizes[rx.index]
          && (x.gap <==> rx.written == rx.sizes[rx.index]))
  }

  function LogSizes(log: seq<Record>): seq<int> { seq(|log|, i requires 0 <= i < |log| => log[i].size) }

  // The session's limits, counting what is left of the batch as declared.
  ghost predicate Within(x: System)
    requires Indexed(x.s)
  {
    && x.s.files == |x.log| && x.s.bytes == Sum(LogSizes(x.log))
    && WithinLimits(x.s, 0, 0)
    && (x.s.rx.Some? ==>
          var rx := x.s.rx.value;
          WithinLimits(x.s, |rx.names| - rx.index, Sum(rx.sizes[rx.index..])))
  }

  function LogPaths(log: seq<Record>): set<Name> { set r | r in log :: r.path }

  // The disk, first what was there and what was saved, then the file being written.
  ghost predicate Kept(x: System)
  {
    && (forall p :: p in x.before ==> p in x.s.folder && x.s.folder[p] == x.before[p])
    && (forall r :: r in x.log ==> SavedWhole(r, x.s.folder) && r.path !in x.before)
    && (forall i, j :: 0 <= i < j < |x.log| ==> x.log[i].path != x.log[j].path)
  }

  ghost predicate SavedWhole(r: Record, folder: Folder)
  {
    r.path in folder && folder[r.path] == Concat(r.chunks) && |Concat(r.chunks)| == r.size
  }

  ghost predicate Accounted(x: System)
  {
    && x.s.folder.Keys == x.before.Keys + LogPaths(x.log) + x.stuck + OpenPart(x.s)
    && x.before.Keys + LogPaths(x.log) !! x.stuck
    && (Receiving?(x.s) ==>
          var path := x.s.rx.value.path;
          && path !in x.s.folder
          && Part(path) !in x.before.Keys + LogPaths(x.log) + x.stuck
          && x.s.folder[Part(path)] == Concat(x.got) && |Concat(x.got)| == x.s.rx.value.written)
  }

  ghost predicate Good(x: System) { Orderly(x) && Sane(x) && Within(x) && Kept(x) && Accounted(x) }

  ghost predicate FreshName(folder: Folder, r: Created)
  {
    r.Opened? ==> r.path != [] && r.path !in folder && Part(r.path) !in folder
  }

  lemma CreatesFresh(folder: Folder, name: Name, env: CreateEnv)
    ensures FreshName(folder, CreateResult(folder, name, env))
  {
    if CreateResult(folder, name, env).Opened? {
      CreateIsFresh(folder, name, env);
    }
  }

  lemma StartIsGood(folder: Folder)
    ensures Good(Start(folder))
  {
  }

  // One offer moves on, and stays in its section or stays out of it.
  lemma OfferMoves(x: System, y: System, g: nat)
    requires Orderly(x) && g in x.offers && y.offers.Keys == x.offers.Keys && OfferFits(y, y.offers[g])
    requires forall h :: h in x.offers && h != g ==> y.offers[h] == x.offers[h]
    requires InSection(y.offers[g]) && InSection(x.offers[g]) && y.s.pending == x.s.pending
    requires forall h :: h in x.offers && x.offers[h].Spawned? ==> OfferFits(y, x.offers[h])
    ensures Orderly(y)
  {
    assert x.s.pending;
    assert exists h :: h in y.offers && InSection(y.offers[h]);
  }

  lemma SomeoneStays(x: System, y: System)
    requires Orderly(x) && x.s.pending
    requires forall g :: g in x.offers && InSection(x.offers[g]) ==> g in y.offers && y.offers[g] == x.offers[g]
    ensures exists g :: g in y.offers && InSection(y.offers[g])
  {
    var h :| h in x.offers && InSection(x.offers[h]);
    assert h in y.offers && InSection(y.offers[h]);
  }

  lemma SpawnOrderly(x: System, g: nat, m: Msg)
    requires Orderly(x) && g !in x.offers && IsUpload(m)
    ensures Orderly(x.(offers := x.offers[g := Spawned(m)]))
  {
    if x.s.pending {
      SomeoneStays(x, x.(offers := x.offers[g := Spawned(m)]));
    }
  }

  lemma ClaimOrderly(x: System, g: nat)
    requires Orderly(x) && g in x.offers && x.offers[g].Spawned?
    ensures Orderly(OffersStep(x, Claim(g)))
  {
    var y := OffersStep(x, Claim(g));
    if !Busy(x.s) {
      assert g in y.offers && InSection(y.offers[g]);
    } else if x.s.pending {
      SomeoneStays(x, y);
    }
  }

  lemma OffersStepOrderly(x: System, a: Action)
    requires Orderly(x) && OffersStep?(a)
    ensures Orderly(OffersStep(x, a))
  {
    var y := OffersStep(x, a);
    if y != x {
      match a
      case Spawn(g, m) => SpawnOrderly(x, g, m);
      case Claim(g) => ClaimOrderly(x, g);
      case Check(g) => OfferMoves(x, y, g);
      case Decline(g) => OfferMoves(x, y, g);
      case Take(g) => OfferMoves(x, y, g);
      case Release(g) => ReleaseOrderly(x, g);
    }
  }

  lemma ReleaseOrderly(x: System, g: nat)
    requires Orderly(x) && g in x.offers && x.offers[g].Leaving?
    ensures Orderly(OffersStep(x, Release(g)))
  {
  }

  lemma OffersStepFrame(x: System, a: Action)
    requires OffersStep?(a)
    ensures var y := OffersStep(x, a);
            y == x.(offers := y.offers, s := x.s.(pending := y.s.pending, failed := y.s.failed))
  {
  }

  // A step of the offers alone leaves the rest as it was.
  lemma OffersStepKeeps(x: System, a: Action)
    requires Good(x) && OffersStep?(a)
    ensures Good(OffersStep(x, a))
  {
    OffersStepOrderly(x, a);
    OffersStepFrame(x, a);
    SameDiskAndBatch(x, OffersStep(x, a));
  }

  lemma SameDiskAndBatch(x: System, y: System)
    requires Sane(x) && Within(x) && Kept(x) && Accounted(x)
    requires y == x.(offers := y.offers, s := x.s.(pending := y.s.pending, failed := y.s.failed))
    ensures Sane(y) && Within(y) && Kept(y) && Accounted(y)
  {
  }

  // The offers notice nothing of what happens to a batch that is open.
  lemma SameOffers(x: System, y: System)
    requires Orderly(x) && y.offers == x.offers
    requires y.s.pending == x.s.pending && y.s.failed == x.s.failed && (x.s.closed ==> y.s.closed)
    requires x.s.rx.None? ==> y.s.rx.None? && y.s.files == x.s.files && y.s.bytes == x.s.bytes
    ensures Orderly(y)
  {
    if x.s.pending {
      SomeoneStays(x, y);
    }
  }

  // What was there and what was saved is where it was.
  lemma KeptElsewhere(x: System, y: System)
    requires Kept(x) && y.before == x.before && y.log == x.log
    requires forall p :: p in x.before.Keys + LogPaths(x.log) && p in x.s.folder ==>
                           p in y.s.folder && y.s.folder[p] == x.s.folder[p]
    ensures Kept(y)
  {
    forall r | r in x.log
      ensures SavedWhole(r, y.s.folder)
    {
      assert SavedWhole(r, x.s.folder) && r.path in LogPaths(x.log);
    }
  }

  // --- Opening the first file of a batch ---

  lemma BeginOrderly(x: System, g: nat, r: Created)
    requires Orderly(x) && g in x.offers && x.offers[g].Asked?
    ensures Orderly(BeginStep(x, g, r))
  {
    OfferMoves(x, BeginStep(x, g, r), g);
  }

  lemma BeginSane(x: System, g: nat, r: Created)
    requires Orderly(x) && Sane(x) && g in x.offers && x.offers[g].Asked? && FreshName(x.s.folder, r)
    ensures Sane(BeginStep(x, g, r))
  {
    assert OfferFits(x, x.offers[g]);
  }

  lemma BeginWithin(x: System, g: nat, r: Created)
    requires Orderly(x) && Sane(x) && Within(x) && g in x.offers && x.offers[g].Asked?
    ensures Indexed(BeginStep(x, g, r).s) && Within(BeginStep(x, g, r))
  {
    assert OfferFits(x, x.offers[g]);
    var sizes := Sizes(x.offers[g].m.files);
    assert sizes[0..] == sizes;
  }

  // A new, empty partial file, open with nothing delivered for it.
  lemma OpeningAccounted(x: System, y: System, path: Name)
    requires Kept(x) && Accounted(x) && !Receiving?(x.s) && FreshName(x.s.folder, Opened(path))
    requires Receiving?(y.s) && y.s.rx.value.path == path && y.s.rx.value.written == 0 && y.got == []
    requires y.s.folder == x.s.folder[Part(path) := []]
    requires y.before == x.before && y.log == x.log && y.stuck == x.stuck
    ensures Kept(y) && Accounted(y)
  {
    KeptElsewhere(x, y);
    PartDiffers(path);
    assert y.s.folder.Keys == x.s.folder.Keys + {Part(path)};
  }

  lemma BeginKeeps(x: System, g: nat, r: Created)
    requires Good(x) && g in x.offers && x.offers[g].Asked? && FreshName(x.s.folder, r)
    ensures Good(BeginStep(x, g, r))
  {
    BeginOrderly(x, g, r);
    BeginSane(x, g, r);
    BeginWithin(x, g, r);
    BeginAccounted(x, g, r);
  }

  lemma BeginAccounted(x: System, g: nat, r: Created)
    requires Orderly(x) && Kept(x) && Accounted(x)
    requires g in x.offers && x.offers[g].Asked? && FreshName(x.s.folder, r)
    ensures Kept(BeginStep(x, g, r)) && Accounted(BeginStep(x, g, r))
  {
    var y := BeginStep(x, g, r);
    if Receiving?(y.s) {
      OpeningAccounted(x, y, r.path);
    } else {
      KeptElsewhere(x, y);
    }
  }

  // --- Throwing the current file away ---

  // y is x with its batch ended, and the partial file, whatever it holds, asked to
  // be removed.
  lemma DropAccounted(x: System, y: System, content: seq<byte>, removed: bool)
    requires Kept(x) && Accounted(x) && Receiving?(x.s) && y.s.rx.None?
    requires y.s.folder == AfterAbandon(x.s.folder[Part(x.s.rx.value.path) := content], x.s.rx.value.path, removed)
    requires y.before == x.before && y.log == x.log && y.stuck == x.stuck + StuckBy(x.s, y.s)
    ensures Kept(y) && Accounted(y)
    ensures removed ==> y.stuck == x.stuck
  {
    var part := Part(x.s.rx.value.path);
    KeptElsewhere(x, y);
    assert x.s.folder.Keys == x.before.Keys + LogPaths(x.log) + x.stuck + {part};
    if removed {
      assert y.s.folder.Keys == x.s.folder.Keys - {part};
    }
  }

  // A batch that ended keeps everything but itself.
  lemma DropKeeps(x: System, y: System, content: seq<byte>, removed: bool)
    requires Good(x) && Receiving?(x.s) && (y.gap ==> y.s.closed) && (x.s.closed ==> y.s.closed)
    requires y.s == x.s.(rx := None, closed := y.s.closed, folder := y.s.folder)
    requires y.s.folder == AfterAbandon(x.s.folder[Part(x.s.rx.value.path) := content], x.s.rx.value.path, removed)
    requires y == x.(s := y.s, gap := y.gap, got := y.got, stuck := x.stuck + StuckBy(x.s, y.s))
    ensures Good(y)
    ensures removed ==> y.stuck == x.stuck
  {
    SameOffers(x, y);
    DropAccounted(x, y, content, removed);
  }

  // Aborting drops the file as it is.
  lemma AbortKeeps(x: System, y: System, removed: bool)
    requires Good(x) && (y.gap ==> y.s.closed) && (x.s.closed ==> y.s.closed)
    requires y.s == Aborted(x.s.(closed := y.s.closed), removed)
    requires y == x.(s := y.s, gap := y.gap, got := y.got, stuck := x.stuck + StuckBy(x.s, y.s))
    ensures Good(y)
    ensures removed ==> y.stuck == x.stuck
  {
    if x.s.rx.Some? {
      var part := Part(x.s.rx.value.path);
      assert x.s.folder[part := x.s.folder[part]] == x.s.folder;
      DropKeeps(x, y, x.s.folder[part], removed);
    } else {
      SameOffers(x, y);
      KeptElsewhere(x, y);
    }
  }

  // --- One chunk ---

  lemma ChunkKeeps(x: System, data: seq<byte>, env: WriteEnv)
    requires Good(x) && !x.gap
    ensures Good(ChunkStep(x, data, env))
    ensures env.removed ==> ChunkStep(x, data, env).stuck == x.stuck
  {
    var y := ChunkStep(x, data, env);
    if !Receiving?(x.s) || TooLong(x.s, data) {
      AbortKeeps(x, y, env.removed);
    } else if !env.ok {
      var part := Part(x.s.rx.value.path);
      DropKeeps(x, y, x.s.folder[part] + data[..Min(env.taken, |data|)], env.removed);
    } else {
      SameOffers(x, y);
      WrittenAccounted(x, y, data);
    }
  }

  lemma WrittenAccounted(x: System, y: System, data: seq<byte>)
    requires Kept(x) && Accounted(x) && Receiving?(x.s) && Receiving?(y.s)
    requires var part := Part(x.s.rx.value.path); y.s.folder == x.s.folder[part := x.s.folder[part] + data]
    requires y.s.rx.value.path == x.s.rx.value.path && y.s.rx.value.written == x.s.rx.value.written + |data|
    requires y.before == x.before && y.log == x.log && y.stuck == x.stuck && y.got == x.got + [data]
    ensures Kept(y) && Accounted(y)
  {
    KeptElsewhere(x, y);
    assert y.got[..|y.got| - 1] == x.got;
    assert y.s.folder.Keys == x.s.folder.Keys;
    PartDiffers(x.s.rx.value.path);
  }

  // --- A file completed ---

  // The file has its final name, and nothing is open.
  lemma SavedAccounted(x: System, z: System)
    requires Kept(x) && Accounted(x) && Receiving?(x.s) && Indexed(x.s)
      && x.s.rx.value.written == x.s.rx.value.sizes[x.s.rx.value.index]
    requires !Receiving?(z.s) && z.s.folder == AfterFinish(x.s.folder, x.s.rx.value.path, true)
    requires z.before == x.before && z.stuck == x.stuck && z.log == x.log + [RecordOf(x.s.rx.value, x.got)]
    ensures Kept(z) && Accounted(z) && Part(x.s.rx.value.path) !in z.s.folder
  {
    var path := x.s.rx.value.path;
    var rec := RecordOf(x.s.rx.value, x.got);
    PartDiffers(path);
    assert z.s.folder.Keys == x.s.folder.Keys - {Part(path)} + {path};
    assert LogPaths(z.log) == LogPaths(x.log) + {path};
    KeptElsewhere(x, z.(log := x.log));
    assert SavedWhole(rec, z.s.folder);
  }

  lemma CountedWithin(x: System, z: System)
    requires Sane(x) && Within(x) && Receiving?(x.s) && x.gap
    requires z.s == Saved(x.s) && z.log == x.log + [RecordOf(x.s.rx.value, x.got)]
    ensures Indexed(z.s) && Within(z)
  {
    var rx := x.s.rx.value;
    var rest := rx.sizes[rx.index..];
    assert LogSizes(z.log)[..|x.log|] == LogSizes(x.log);
    assert rest == [rx.sizes[rx.index]] + rest[1..];
    SumOfTwoParts([rx.sizes[rx.index]], rest[1..]);
    assert rest[1..] == rx.sizes[rx.index + 1..];
    SumNotNegative(rest[1..]);
  }

  lemma FinishKeeps(x: System, env: FinishEnv, next: Created)
    requires Good(x) && x.gap && (CanFinish(x.s, env) ==> FreshName(Saved(x.s).folder, next))
    ensures Good(FinishStep(x, env, next))
    ensures env.removed ==> FinishStep(x, env, next).stuck == x.stuck
  {
    var y := FinishStep(x, env, next);
    if CanFinish(x.s, env) {
      var z := x.(s := Saved(x.s), gap := false, got := [], log := y.log);
      SavedAccounted(x, z);
      CountedWithin(x, z);
      SameOffers(x, y);
      AdvanceKeeps(x, z, y, next);
    } else {
      AbortKeeps(x, y, env.removed);
    }
  }

  lemma AdvanceKeeps(x: System, z: System, y: System, next: Created)
    requires Good(x) && Receiving?(x.s) && x.gap
    requires z.s == Saved(x.s) && Kept(z) && Accounted(z) && Indexed(z.s) && Within(z)
    requires Part(x.s.rx.value.path) !in z.s.folder && FreshName(z.s.folder, next)
    requires y == z.(s := Moved(z.s, next), stuck := z.stuck + StuckBy(x.s, Moved(z.s, next))) && y.got == [] && !y.gap
    ensures Sane(y) && Within(y) && Kept(y) && Accounted(y) && y.stuck == z.stuck
  {
    NothingSticks(x, z, y, next);
    if Receiving?(y.s) {
      OpeningAccounted(z, y, next.path);
    } else {
      KeptElsewhere(z, y);
    }
  }

  lemma NothingSticks(x: System, z: System, y: System, next: Created)
    requires Indexed(x.s) && Receiving?(x.s) && z.s == Saved(x.s) && Indexed(z.s) && FreshName(z.s.folder, next)
    requires Part(x.s.rx.value.path) !in z.s.folder
    requires y == z.(s := Moved(z.s, next), stuck := z.stuck + StuckBy(x.s, Moved(z.s, next)))
    ensures y.stuck == z.stuck
  {
    assert StuckBy(x.s, y.s) == {};
  }

  // --- Every run ---

  // Whether the operating system lets every partial file be removed in this step.
  predicate LetsRemove(a: Action)
  {
    match a
    case Chunk(_, env) => env.removed
    case Finish(env, _) => env.removed
    case Cancel(_, removed) => removed
    case Close(removed) => removed
    case _ => true
  }

  lemma FinishStepKeeps(x: System, env: FinishEnv, cenv: CreateEnv)
    requires Good(x) && x.gap
    ensures Good(FinishStep(x, env, NextCreated(x.s, env, cenv)))
    ensures env.removed ==> FinishStep(x, env, NextCreated(x.s, env, cenv)).stuck == x.stuck
  {
    var next := NextCreated(x.s, env, cenv);
    if CanFinish(x.s, env) && Saved(x.s).rx.Some? {
      CreatesFresh(Saved(x.s).folder, Saved(x.s).rx.value.names[Saved(x.s).rx.value.index], cenv);
    }
    FinishKeeps(x, env, next);
  }

  lemma CancelKeeps(x: System, id: string, removed: bool)
    requires Good(x) && !x.gap
    ensures Good(Moving(x, Cancelled(x.s, id, removed)))
    ensures removed ==> Moving(x, Cancelled(x.s, id, removed)).stuck == x.stuck
  {
    var y := Moving(x, Cancelled(x.s, id, removed));
    if y.s.rx.None? {
      AbortKeeps(x, y, removed);
    } else {
      assert y == x;
    }
  }

  lemma CloseKeeps(x: System, removed: bool)
    requires Good(x)
    ensures Good(Moving(x, Closed(x.s, removed)))
    ensures removed ==> Moving(x, Closed(x.s, removed)).stuck == x.stuck
  {
    var y := Moving(x, Closed(x.s, removed));
    if x.s.closed {
      assert y == x;
    } else {
      AbortKeeps(x, y, removed);
    }
  }

  // What a step never goes back on.
  ghost predicate Follows(x: System, y: System)
  {
    && y.before == x.before && x.log <= y.log
    && (x.s.closed ==> y.s.closed && y.s.folder == x.s.folder && y.log == x.log)
  }

  // What a step from x to y keeps, and whether every partial file could be removed in it.
  ghost predicate KeptBy(x: System, y: System, removed: bool)
  {
    Good(y) && Follows(x, y) && (removed ==> y.stuck == x.stuck)
  }

  lemma StepIsOffersStep(x: System, a: Action)
    requires Indexed(x.s) && OffersStep?(a)
    ensures Step(x, a) == OffersStep(x, a)
  {
  }

  lemma OffersStepIs(x: System, a: Action)
    requires Good(x) && OffersStep?(a)
    ensures KeptBy(x, OffersStep(x, a), true)
  {
    OffersStepKeeps(x, a);
    OffersStepFrame(x, a);
  }

  lemma BeginStepIs(x: System, g: nat, cenv: CreateEnv)
    requires Good(x)
    ensures KeptBy(x, Step(x, Begin(g, cenv)), true)
  {
    if g in x.offers && x.offers[g].Asked? && x.offers[g].names != [] {
      CreatesFresh(x.s.folder, x.offers[g].names[0], cenv);
      BeginKeeps(x, g, CreateResult(x.s.folder, x.offers[g].names[0], cenv));
    }
  }

  lemma ChunkStepIs(x: System, data: seq<byte>, env: WriteEnv)
    requires Good(x)
    ensures KeptBy(x, Step(x, Chunk(data, env)), env.removed)
  {
    if !x.gap {
      ChunkKeeps(x, data, env);
    }
  }

  lemma FinishStepIs(x: System, env: FinishEnv, cenv: CreateEnv)
    requires Good(x)
    ensures KeptBy(x, Step(x, Finish(env, cenv)), env.removed)
  {
    if x.gap {
      FinishStepKeeps(x, env, cenv);
    }
  }

  lemma EndStepIs(x: System, id: string, removed: bool)
    requires Good(x)
    ensures KeptBy(x, Step(x, Cancel(id, removed)), removed)
    ensures KeptBy(x, Step(x, Close(removed)), removed)
  {
    if !x.gap {
      CancelKeeps(x, id, removed);
    }
    CloseKeeps(x, removed);
  }

  lemma EveryStepIs(x: System, a: Action)
    requires Good(x)
    ensures KeptBy(x, Step(x, a), LetsRemove(a))
  {
    match a
    case Begin(g, cenv) => BeginStepIs(x, g, cenv);
    case Chunk(data, env) => ChunkStepIs(x, data, env);
    case Finish(env, cenv) => FinishStepIs(x, env, cenv);
    case Cancel(id, removed) => EndStepIs(x, id, removed);
    case Close(removed) => EndStepIs(x, "", removed);
    case _ => StepIsOffersStep(x, a); OffersStepIs(x, a);
  }

  // One step, whichever it is.
  lemma StepKeeps(x: System, a: Action)
    requires Good(x)
    ensures Good(Step(x, a)) && Follows(x, Step(x, a))
    ensures LetsRemove(a) ==> Step(x, a).stuck == x.stuck
  {
    EveryStepIs(x, a);
  }

  ghost function Next(x: System, a: Action): System { if Indexed(x.s) then Step(x, a) else x }

  // Where a session is after the given steps.
  ghost function Reached(folder: Folder, actions: seq<Action>): System { Run(Next, Start(folder), actions) }

  lemma ReachedIsGood(folder: Folder, actions: seq<Action>)
    ensures Good(Reached(folder, actions)) && Reached(folder, actions).before == folder
  {
    StartIsGood(folder);
    RunIsGood(Start(folder), actions);
  }

  lemma AllStepsKeep()
    ensures Runs.Kept(Next, x => Good(x), _ => true)
    ensures Moves(Next, x => Good(x), (x, y) => Follows(x, y))
  {
    forall x, a | Good(x)
      ensures Good(Next(x, a)) && Follows(x, Next(x, a))
    {
      StepKeeps(x, a);
    }
  }

  lemma RunIsGood(x: System, actions: seq<Action>)
    requires Good(x)
    ensures Good(Run(Next, x, actions)) && Follows(x, Run(Next, x, actions))
  {
    AllStepsKeep();
    RunKeeps(Next, x, actions, z => Good(z), _ => true);
    RunMoves(Next, x, actions, z => Good(z), (y, z) => Follows(y, z));
  }
}
