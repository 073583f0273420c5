/** What every run of the receiving side means to those it is for: the owner of the
    folder, the operator and the viewer (host-agent/internal/transfer/session.go). */
module ReceiveFacts {
  import opened Prelude
  import opened SafeNames
  import opened Messages
  import opened Destination
  import opened Receive
  import opened ReceiveRuns
  import opened ReceiveNames
  import opened Runs

  // --- What is on the disk, and who may ask for more ---

  // A new name in the folder is a file saved whole: exactly the declared number of
  // bytes, exactly the chunks delivered while it was open, and under the name agreed
  // to, numbered only if that was taken. Only the partial file being written, and any
  // the system would not remove, are there besides.
  lemma NewNamesAreWholeFiles(folder: Folder, actions: seq<Action>, name: Name)
    ensures var x := Reached(folder, actions);
            && (name in x.s.folder <==>
                name in folder || name in LogPaths(x.log) || name in x.stuck || name in OpenPart(x.s))
            && (name in LogPaths(x.log) ==>
                  name !in folder && name !in OpenPart(x.s) && name !in x.stuck
                  && exists i :: 0 <= i < |x.log| && IsSavedFile(x, i, name))
  {
    ReachedIsProper(folder, actions);
    var x := Reached(folder, actions);
    if name in LogPaths(x.log) {
      var i :| 0 <= i < |x.log| && x.log[i].path == name;
      assert x.log[i] in x.log && SavedWhole(x.log[i], x.s.folder);
      assert IsSavedFile(x, i, name);
    }
  }

  // A name in the folder is that of record i: its bytes, its chunks, and the first
  // candidate for its name that was free.
  ghost predicate IsSavedFile(x: System, i: nat, name: Name)
  {
    && i < |x.log| && x.log[i].path == name && name in x.s.folder
    && |x.s.folder[name]| == x.log[i].size && x.s.folder[name] == Concat(x.log[i].chunks)
    && NamedIn(NamesBefore(x, i), x.log[i].name, name)
  }

  // Nothing that was in the folder, and nothing once saved, is ever changed or
  // removed, and the list of saved files only grows.
  lemma NothingIsOverwritten(x: System, actions: seq<Action>, name: Name)
    requires Good(x) && name in x.before.Keys + LogPaths(x.log)
    ensures var y := Run(Next, x, actions);
            x.log <= y.log && name in x.s.folder && name in y.s.folder && y.s.folder[name] == x.s.folder[name]
  {
    var y := Run(Next, x, actions);
    RunIsGood(x, actions);
    if name in LogPaths(x.log) {
      var r :| r in x.log && r.path == name;
      assert r in y.log && SavedWhole(r, x.s.folder) && SavedWhole(r, y.s.folder);
    }
  }

  // Once the session is closed, the disk is never touched again, and no partial
  // file is there but those the system would not remove.
  lemma QuietAfterClose(x: System, actions: seq<Action>)
    requires Good(x) && x.s.closed
    ensures var y := Run(Next, x, actions); y.s.closed && y.s.folder == x.s.folder && y.log == x.log
    ensures x.s.folder.Keys == x.before.Keys + LogPaths(x.log) + x.stuck
  {
    RunIsGood(x, actions);
  }

  // While the system lets partial files be removed, the only one is the one open.
  lemma NothingIsLeftBehind(folder: Folder, actions: seq<Action>)
    requires Allowed(actions, LetsRemove)
    ensures var x := Reached(folder, actions); x.s.folder.Keys == folder.Keys + LogPaths(x.log) + OpenPart(x.s)
  {
    var tidy := (x: System) => Good(x) && x.stuck == {};
    forall x, a | tidy(x) && LetsRemove(a)
      ensures tidy(Next(x, a))
    {
      StepKeeps(x, a);
    }
    StartIsGood(folder);
    RunKeeps(Next, Start(folder), actions, tidy, LetsRemove);
    ReachedIsGood(folder, actions);
    assert tidy(Reached(folder, actions));
  }

  // The limits of a session hold of what was saved together with what is left of
  // the batch, though the check and the opening are apart.
  lemma LimitsHoldThroughout(folder: Folder, actions: seq<Action>)
    ensures var x := Reached(folder, actions);
            && |x.log| + Left(x.s) <= MAX_SESSION_FILES
            && Sum(LogSizes(x.log)) + BytesLeft(x.s) <= MAX_SESSION_BYTES
  {
    ReachedIsGood(folder, actions);
    assert Within(Reached(folder, actions));
  }

  function Left(s: State): int { if s.rx.None? then 0 else |s.rx.value.names| - s.rx.value.index }

  function BytesLeft(s: State): int
  {
    if s.rx.None? || s.rx.value.index > |s.rx.value.sizes| then 0 else Sum(s.rx.value.sizes[s.rx.value.index..])
  }

  // A batch the operator agreed to is refused as busy only by a closed session:
  // whoever asks holds the claim, and nothing else opens a batch meanwhile.
  lemma ApprovedIsBusyOnlyIfClosed(folder: Folder, actions: seq<Action>, g: nat)
    requires g in Reached(folder, actions).offers && Reached(folder, actions).offers[g].Asked?
    ensures var x := Reached(folder, actions); CanBegin(x.s) <==> !x.s.closed
  {
    ReachedIsGood(folder, actions);
    var x := Reached(folder, actions);
    assert OfferFits(x, x.offers[g]);
  }

  // A goroutine that takes a failure takes that of its own batch, and falls back
  // on "busy" only in a closed session.
  lemma FailureIsOwn(folder: Folder, actions: seq<Action>, g: nat)
    requires g in Reached(folder, actions).offers && Reached(folder, actions).offers[g].Refused?
    ensures var x := Reached(folder, actions);
            var id := x.offers[g].m.id;
            var frame := TakenFrame(x.s, Reject(id, "busy"));
            frame.id == id && (frame.t == "f-reject" ==> x.s.closed)
  {
    ReachedIsGood(folder, actions);
    var x := Reached(folder, actions);
    assert OfferFits(x, x.offers[g]);
  }

  // One question at a time, and the claim is held while and only while there is one.
  lemma OneQuestionAtATime(folder: Folder, actions: seq<Action>, g: nat, h: nat)
    ensures var x := Reached(folder, actions);
            && (g in x.offers && h in x.offers && InSection(x.offers[g]) && InSection(x.offers[h]) ==> g == h)
            && (x.s.pending <==> exists k :: k in x.offers && InSection(x.offers[k]))
  {
    ReachedIsGood(folder, actions);
  }

  // An offer is taken up exactly while nothing else is: no offer being decided, no batch
  // being written, the session not closed.
  lemma ClaimedExactly(x: System, g: nat)
    requires Good(x) && g in x.offers && x.offers[g].Spawned?
    ensures var y := Step(x, Claim(g));
            var free := !x.s.closed && x.s.rx.None? && forall k :: k in x.offers ==> !InSection(x.offers[k]);
            y == if free then x.(s := x.s.(pending := true), offers := x.offers[g := Holding(x.offers[g].m)])
                 else x.(offers := x.offers - {g})
  {
  }

  // The operator is asked exactly about offers whose names are all safe and that, with
  // what was saved, come to no more than the limits.
  lemma AskedExactly(x: System, g: nat)
    requires Indexed(x.s) && Within(x) && g in x.offers && x.offers[g].Holding?
    ensures var m, y := x.offers[g].m, Step(x, Check(g));
            var fits := |x.log| + |m.files| <= 200 && Sum(LogSizes(x.log)) + Sum(Sizes(m.files)) <= 0x1_0000_0000;
            && y == x.(offers := y.offers) && y.offers.Keys == x.offers.Keys
            && y.offers[g] == if AllSafe(m.files) && fits then Asked(m, Names(m.files)) else Leaving
  {
  }

  // Whatever comes of an offer, its claim is given back. When it is declined, or its
  // failure to begin taken away, its goroutine is about to do that; ...
  lemma DeclinedLeaves(x: System, g: nat)
    requires Indexed(x.s) && g in x.offers
    ensures x.offers[g].Asked? ==> Step(x, Decline(g)) == x.(offers := x.offers[g := Leaving])
    ensures x.offers[g].Refused? ==>
              Step(x, Take(g)) == x.(s := x.s.(failed := None), offers := x.offers[g := Leaving])
  {
  }

  // ... when it begins or cannot, it is, or there is a failure to take; ...
  lemma BegunLeaves(x: System, g: nat, cenv: CreateEnv)
    requires Good(x) && g in x.offers && x.offers[g].Asked? && x.offers[g].names != [] && !x.s.closed
    ensures var y := Step(x, Begin(g, cenv));
            y.offers == x.offers[g := if y.s.rx.Some? then Leaving else Refused(x.offers[g].m)]
  {
    BatchIsTheOffer(x, g, cenv);
    var r := CreateResult(x.s.folder, x.offers[g].names[0], cenv);
    assert Step(x, Begin(g, cenv)) == BeginStep(x, g, r);
  }

  // ... and then the next offer may be taken up.
  lemma LeavingIsReleased(x: System, g: nat)
    requires Indexed(x.s) && g in x.offers && x.offers[g].Leaving?
    ensures Step(x, Release(g)) == x.(s := x.s.(pending := false), offers := x.offers - {g})
  {
  }

  // --- What the viewer and the clipboard are told ---

  // Finishing a file says so exactly if it was saved, of that file; what else is said
  // is that the batch is over early.
  lemma DoneMeansSaved(x: System, env: FinishEnv, next: Created)
    requires Good(x) && x.gap && x.s.rx.Some?
    ensures var y := FinishStep(x, env, next);
            var frames := FinishFrames(x.s, env, next);
            if CanFinish(x.s, env) then
              && y.log == x.log + [y.log[|x.log|]]
              && frames[0] == BLANK.(t := "f-done", id := y.log[|x.log|].id, index := y.log[|x.log|].index)
              && (|frames| == 1 <==> y.s.rx.Some? || LastOfBatch(x.s.rx.value))
              && (|frames| != 1 ==>
                    frames == [frames[0], ErrorOf(x.s.rx.value.id, if next.NotSafe? then "bad-name" else "io")])
            else
              y.log == x.log && y.s.rx.None?
              && frames == [ErrorOf(x.s.rx.value.id, if env.diskFull then "no-space" else "io")]
  {
    assert FinishStep(x, env, next).log[..|x.log|] == x.log;
  }

  // The frame that ends a batch early.
  function ErrorOf(id: string, reason: string): Msg { BLANK.(t := "f-error", id := id, reason := reason) }

  function ProgressOf(id: string, index: nat, sent: nat): Msg
  {
    BLANK.(t := "f-progress", id := id, index := index, sent := sent)
  }

  // A chunk ends the batch exactly if it is longer than what is missing of its file or
  // its write fails, and the viewer is told why; otherwise it is told how much is there,
  // if that is due.
  lemma ChunkAnswers(x: System, data: seq<byte>, env: WriteEnv)
    requires Good(x) && !x.gap && x.s.rx.Some?
    ensures var rx := x.s.rx.value;
            var y, frames := ChunkStep(x, data, env), ChunkFrames(x.s, data, env);
            var tooLong := |Concat(x.got)| + |data| > rx.sizes[rx.index];
            && (y.s.rx.None? <==> tooLong || !env.ok)
            && frames == (if tooLong then [ErrorOf(rx.id, "too-large")]
                          else if !env.ok then [ErrorOf(rx.id, if env.diskFull then "no-space" else "io")]
                          else if env.due then
                            [ProgressOf(rx.id, rx.index, |Concat(x.got)| + |data|)]
                          else [])
  {
  }

  // With no batch, it is dropped without a word.
  lemma StrayChunkIsDropped(x: System, data: seq<byte>, env: WriteEnv)
    requires Good(x) && !x.gap && x.s.rx.None?
    ensures Step(x, Chunk(data, env)) == x.(gap := false) && ChunkFrames(x.s, data, env) == []
  {
    assert StuckBy(x.s, x.s) == {};
  }

  // A batch that begins is the one offered: its id, the names agreed to, the sizes
  // declared, and whether it was pasted. If its first file cannot be opened, why is
  // left for the goroutine that asked.
  lemma BatchIsTheOffer(x: System, g: nat, cenv: CreateEnv)
    requires Good(x) && g in x.offers && x.offers[g].Asked? && !x.s.closed
    ensures var o, y := x.offers[g], Step(x, Begin(g, cenv));
            && o.names != []
            && (if CreateResult(x.s.folder, o.names[0], cenv).Opened? then
                  && y.s.rx.Some? && y.s.failed.None?
                  && y.s.rx.value.id == o.m.id && y.s.rx.value.names == o.names && y.s.rx.value.clip == o.m.clip
                  && y.s.rx.value.sizes == Sizes(o.m.files) && y.s.rx.value.index == 0 && y.s.rx.value.saved == []
                else
                  && y.s.rx.None?
                  && y.s.failed == Some(ErrorOf(o.m.id, if SafeName(o.names[0]).BadName? then "bad-name" else "io")))
  {
    assert OfferFits(x, x.offers[g]);
    var o := x.offers[g];
    OpenedIffSafe(x.s.folder, o.names[0], cenv);
    assert Step(x, Begin(g, cenv)) == BeginStep(x, g, CreateResult(x.s.folder, o.names[0], cenv));
  }

  lemma OpenedIffSafe(folder: Folder, name: Name, cenv: CreateEnv)
    ensures CreateResult(folder, name, cenv).NotSafe? <==> SafeName(name).BadName?
  {
  }

  // Until it is over, a batch stays that one.
  lemma BatchStays(x: System, a: Action)
    requires Good(x) && !a.Begin? && Step(x, a).s.rx.Some?
    ensures x.s.rx.Some?
    ensures var was, now := x.s.rx.value, Step(x, a).s.rx.value;
            now.id == was.id && now.names == was.names && now.sizes == was.sizes && now.clip == was.clip
  {
    if a.Finish? {
      StepIsFinish(x, a.fenv, a.nenv);
    } else {
      QuietStepIs(x, a);
    }
  }

  // The clipboard gets the paths exactly when the last file of a pasted batch is saved.
  lemma PastedExactly(x: System, env: FinishEnv)
    requires Good(x) && x.gap && x.s.rx.Some?
    ensures var rx := x.s.rx.value;
            Pasted(x.s, env) != [] <==> env.ok && rx.clip && rx.index == |rx.names| - 1
  {
    var part := Part(x.s.rx.value.path);
    assert part in OpenPart(x.s) && part in x.s.folder;
  }

  // A chunk is answered by nothing, by how much of its file is there now, or by the
  // end of the batch.
  lemma ProgressIsTrue(x: System, data: seq<byte>, env: WriteEnv)
    requires Good(x) && !x.gap
    ensures var y := ChunkStep(x, data, env);
            forall f :: f in ChunkFrames(x.s, data, env) ==>
              && x.s.rx.Some? && f.id == x.s.rx.value.id
              && (if y.s.rx.Some? then f.t == "f-progress" && f.sent == |Concat(y.got)| && f.index == y.s.rx.value.index
                  else f.t == "f-error")
  {
    ChunkKeeps(x, data, env);
  }

  // The paths handed to the clipboard when a pasted batch is done are those of its
  // files, all of them and in order, each for its own name and on the disk whole.
  lemma PastedIsTheBatch(folder: Folder, actions: seq<Action>, env: FinishEnv, next: Created)
    requires var x := Reached(folder, actions); x.gap && Indexed(x.s) && Pasted(x.s, env) != []
    ensures var x := Reached(folder, actions);
            var y := FinishStep(x, env, next);
            var paths := Pasted(x.s, env);
            && |paths| == |x.s.rx.value.names| && Tail(y.log, x.s.rx.value.id, x.s.rx.value.names, paths)
            && (forall r :: r in y.log ==> SavedWhole(r, y.s.folder)) && LogNamed(NamedIn, y)
  {
    ReachedIsProper(folder, actions);
    var x := Reached(folder, actions);
    SavedGathered(x, env, next);
    LastKeeps(x, env, next);
  }

  lemma LastKeeps(x: System, env: FinishEnv, next: Created)
    requires Proper(x) && x.gap && CanFinish(x.s, env) && LastOfBatch(x.s.rx.value)
    ensures ReceiveRuns.Kept(FinishStep(x, env, next)) && LogNamed(NamedIn, FinishStep(x, env, next))
  {
    FinishKeeps(x, env, TooMany);
    NamedInRises();
    SavedNamed(NamedIn, x, FinishStep(x, env, next));
  }

  // --- What a cancel ends ---

  // The batch being written is the one of this id; the empty id stands for any.
  predicate IsBatch(x: System, id: string) { x.s.rx.Some? && (id == "" || id == x.s.rx.value.id) }

  // A cancel of another batch, one refused, not begun or over, does nothing at all.
  lemma OtherCancelIsNothing(x: System, id: string, removed: bool)
    requires Good(x) && !IsBatch(x, id)
    ensures Step(x, Cancel(id, removed)) == x
  {
    assert StuckBy(x.s, x.s) == {};
  }

  // A cancel of the batch being written ends it, and takes its partial file, if that
  // can be removed, and nothing else from the folder.
  lemma CancelEndsTheBatch(x: System, id: string, removed: bool)
    requires Good(x) && !x.gap && IsBatch(x, id)
    ensures var y := Step(x, Cancel(id, removed));
            && y.s.rx.None? && y.log == x.log && y.offers == x.offers && y.before == x.before
            && y.s.folder == (if removed then x.s.folder - OpenPart(x.s) else x.s.folder)
            && y.s == x.s.(rx := None, folder := y.s.folder)
  {
  }

  // Wherever in a run a cancel of another batch comes, the run ends as without it: a
  // late cancel never ends a later batch.
  lemma LateCancelChangesNothing(folder: Folder, before: seq<Action>, id: string, removed: bool, after: seq<Action>)
    requires !IsBatch(Reached(folder, before), id)
    ensures Reached(folder, before + [Cancel(id, removed)] + after) == Reached(folder, before + after)
  {
    var x := Reached(folder, before);
    var late := [Cancel(id, removed)];
    ReachedIsGood(folder, before);
    OtherCancelIsNothing(x, id, removed);
    RunOfOne(Next, x, Cancel(id, removed));
    RunOfTwoParts(Next, Start(folder), before, late);
    RunOfTwoParts(Next, Start(folder), before + late, after);
    RunOfTwoParts(Next, Start(folder), before, after);
  }

  // --- Why one thread must deliver ---

  // finishFile looks at nothing but the current file. Were an empty chunk delivered by
  // a second thread between the chunk that completes a file and finishFile, both would
  // find the file complete and call it; and the second call would save the next file of
  // the batch, of which nothing has arrived.
  lemma TwoThreadsSaveAnEmptyFile(x: System, data: seq<byte>, cenv: CreateEnv, last: Created)
    requires Good(x) && !x.gap && Receiving?(x.s) && Completes(x.s, data, WRITE_OK)
    requires Indexed(Twice(x, data).s) && NextCreated(Twice(x, data).s, FINISH_OK, cenv).Opened?
    ensures Indexed(ChunkStep(x, data, WRITE_OK).s) && Completes(ChunkStep(x, data, WRITE_OK).s, [], WRITE_OK)
    ensures var z := FinishStep(Twice(x, data), FINISH_OK, NextCreated(Twice(x, data).s, FINISH_OK, cenv));
            Indexed(z.s) && SavesEmpty(z, last)
  {
    var y := ChunkStep(x, data, WRITE_OK);
    ChunkKeeps(x, data, WRITE_OK);
    EmptyChunkAgain(y);
    var again := y.(got := y.got + [[]]);
    FinishStepKeeps(again, FINISH_OK, cenv);
    EmptyIsSaved(FinishStep(again, FINISH_OK, NextCreated(again.s, FINISH_OK, cenv)), last);
  }

  // The completing chunk, and an empty one after it.
  ghost function Twice(x: System, data: seq<byte>): System
    requires Indexed(x.s)
  {
    var y := ChunkStep(x, data, WRITE_OK);
    if Indexed(y.s) then ChunkStep(y, [], WRITE_OK) else y
  }

  // Finishing now saves a file that has declared bytes and holds none.
  ghost predicate SavesEmpty(z: System, last: Created)
    requires Indexed(z.s)
  {
    var w := FinishStep(z, FINISH_OK, last);
    && |w.log| == |z.log| + 1
    && var rec := w.log[|z.log|];
       rec.size > 0 && rec.path in w.s.folder && w.s.folder[rec.path] == []
  }

  // The empty chunk finds the file complete a second time, and changes nothing.
  lemma EmptyChunkAgain(y: System)
    requires Good(y) && y.gap && Receiving?(y.s)
    ensures Completes(y.s, [], WRITE_OK) && ChunkStep(y, [], WRITE_OK) == y.(got := y.got + [[]])
    ensures Good(y.(got := y.got + [[]]))
  {
    var part := Part(y.s.rx.value.path);
    assert y.s.folder[part] + [] == y.s.folder[part];
    assert y.s.folder[part := y.s.folder[part]] == y.s.folder;
    var again := y.(got := y.got + [[]]);
    SameOffers(y, again);
    assert again.got[..|y.got|] == y.got;
    assert Concat(again.got) == Concat(y.got) + [] == Concat(y.got);
  }

  lemma EmptyIsSaved(z: System, last: Created)
    requires Good(z) && Receiving?(z.s) && z.s.rx.value.written == 0
    ensures SavesEmpty(z, last)
  {
    var part := Part(z.s.rx.value.path);
    assert |z.s.folder[part]| == 0;
    PartDiffers(z.s.rx.value.path);
  }
}
