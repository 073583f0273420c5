/** Under which names the receiving side saves what it accepts, kept over every run
    (host-agent/internal/transfer/dest.go, host-agent/internal/transfer/session.go). */
module ReceiveNames {
  import opened Prelude
  import opened SafeNames
  import opened Messages
  import opened Destination
  import opened Receive
  import opened ReceiveRuns
  import opened Runs

  // A name, or its partial file, is among these.
  predicate TakenIn(base: set<Name>, name: Name) { name in base || Part(name) in base }

  ghost predicate FirstFree(base: set<Name>, safe: Name, path: Name, k: nat)
    requires k <= MAX_COLLISIONS
  {
    path == Candidate(safe, k) && forall j :: 0 <= j < k ==> TakenIn(base, Candidate(safe, j))
  }

  // A path is a safe name itself, or that name numbered because the earlier candidates
  // were among the given names.
  ghost predicate NumberedIn(base: set<Name>, safe: Name, path: Name)
  {
    exists k: nat :: k <= MAX_COLLISIONS && FirstFree(base, safe, path, k)
  }

  // A file is saved under the name agreed to, or that name numbered.
  ghost predicate NamedIn(base: set<Name>, name: Name, path: Name)
  {
    SafeName(name).Safe? && NumberedIn(base, SafeName(name).name, path)
  }

  lemma MoreNames(base: set<Name>, more: set<Name>, name: Name, path: Name)
    requires base <= more && NamedIn(base, name, path)
    ensures NamedIn(more, name, path)
  {
    var safe := SafeName(name).name;
    var k: nat :| k <= MAX_COLLISIONS && FirstFree(base, safe, path, k);
    assert FirstFree(more, safe, path, k);
  }

  // Create names what it opens like that, after the files it finds.
  lemma CreateNames(folder: Folder, name: Name, env: CreateEnv)
    requires CreateResult(folder, name, env).Opened?
    ensures NamedIn(folder.Keys, name, CreateResult(folder, name, env).path)
  {
    var safe := SafeName(name).name;
    var k := SearchFindsFree(folder, safe, 0, env.failAt);
    assert FirstFree(folder.Keys, safe, CreateResult(folder, name, env).path, k);
  }

  // A way of naming: which paths a name may be saved under, the more the more names
  // are there already.
  type Naming = (set<Name>, Name, Name) -> bool

  ghost predicate Rises(named: Naming)
  {
    forall b, c, n, p {:trigger named(b, n, p), named(c, n, p)} :: b <= c && named(b, n, p) ==> named(c, n, p)
  }

  lemma NamedInRises()
    ensures Rises(NamedIn)
  {
    forall b, c, n, p | b <= c && NamedIn(b, n, p)
      ensures NamedIn(c, n, p)
    {
      MoreNames(b, c, n, p);
    }
  }

  // The names there were besides, when record i was saved.
  function NamesBefore(x: System, i: nat): set<Name>
    requires i <= |x.log|
  {
    x.before.Keys + LogPaths(x.log[..i]) + x.stuck
  }

  ghost predicate LogNamed(named: Naming, x: System)
  {
    forall i {:trigger x.log[i]} :: 0 <= i < |x.log| ==> named(NamesBefore(x, i), x.log[i].name, x.log[i].path)
  }

  ghost predicate OpenNamed(named: Naming, x: System)
  {
    x.s.rx.Some? ==>
      && x.s.rx.value.index < |x.s.rx.value.names|
      && named(NamesBefore(x, |x.log|), x.s.rx.value.names[x.s.rx.value.index], x.s.rx.value.path)
  }

  ghost predicate NamedBy(named: Naming, x: System) { LogNamed(named, x) && OpenNamed(named, x) }

  lemma NamesRise(x: System, y: System, i: nat)
    requires y.before == x.before && x.log <= y.log && x.stuck <= y.stuck && i <= |x.log|
    ensures NamesBefore(x, i) <= NamesBefore(y, i)
  {
    assert y.log[..i] == x.log[..i];
  }

  lemma SameLogNamed(named: Naming, x: System, y: System)
    requires Rises(named) && LogNamed(named, x)
    requires y.before == x.before && y.log == x.log && x.stuck <= y.stuck
    ensures LogNamed(named, y)
  {
    forall i | 0 <= i < |y.log|
      ensures named(NamesBefore(y, i), y.log[i].name, y.log[i].path)
    {
      NamesRise(x, y, i);
      assert named(NamesBefore(x, i), x.log[i].name, x.log[i].path);
    }
  }

  // Until it is finished, a file keeps its name, and no other gets one.
  lemma SameNamed(named: Naming, x: System, y: System)
    requires Rises(named) && NamedBy(named, x)
    requires y.before == x.before && y.log == x.log && x.stuck <= y.stuck
    requires y.s.rx.Some? ==> x.s.rx.Some? && y.s.rx.value == x.s.rx.value.(written := y.s.rx.value.written)
    ensures NamedBy(named, y)
  {
    SameLogNamed(named, x, y);
    NamesRise(x, y, |x.log|);
  }

  lemma OpenedNamed(named: Naming, x: System, y: System)
    requires Rises(named) && LogNamed(named, x) && y.before == x.before && y.log == x.log && y.stuck == x.stuck
    requires y.s.rx.Some? ==>
               && y.s.rx.value.index < |y.s.rx.value.names|
               && named(NamesBefore(x, |x.log|), y.s.rx.value.names[y.s.rx.value.index], y.s.rx.value.path)
    ensures NamedBy(named, y)
  {
    SameLogNamed(named, x, y);
    assert NamesBefore(y, |y.log|) == NamesBefore(x, |x.log|);
  }

  lemma SavedNamed(named: Naming, x: System, z: System)
    requires Rises(named) && NamedBy(named, x) && Indexed(x.s) && x.s.rx.Some?
    requires z.before == x.before && z.log == x.log + [RecordOf(x.s.rx.value, x.got)] && x.stuck <= z.stuck
    ensures LogNamed(named, z)
  {
    forall i | 0 <= i < |z.log|
      ensures named(NamesBefore(z, i), z.log[i].name, z.log[i].path)
    {
      NamesRise(x, z, i);
      if i < |x.log| {
        assert z.log[i] == x.log[i];
        assert named(NamesBefore(x, i), x.log[i].name, x.log[i].path);
      }
    }
  }

  // --- The steps that open a file ---

  // What Create answers for a name is named like that.
  ghost predicate NamesRight(named: Naming, folder: Folder, name: Name, r: Created)
  {
    r.Opened? ==> named(folder.Keys, name, r.path)
  }

  lemma BeginNamed(named: Naming, x: System, g: nat, r: Created)
    requires Good(x) && Rises(named) && NamedBy(named, x)
    requires g in x.offers && x.offers[g].Asked? && x.offers[g].names != []
    requires NamesRight(named, x.s.folder, x.offers[g].names[0], r)
    ensures NamedBy(named, BeginStep(x, g, r))
  {
    BeginOpens(x, g, r);
    NothingOpen(x);
    OpenedNamed(named, x, BeginStep(x, g, r));
  }

  lemma BeginOpens(x: System, g: nat, r: Created)
    requires Orderly(x) && g in x.offers && x.offers[g].Asked?
    ensures !Receiving?(x.s)
    ensures var y := BeginStep(x, g, r);
            && y.before == x.before && y.log == x.log && y.stuck == x.stuck
            && (y.s.rx.Some? ==>
                  && r.Opened? && y.s.rx.value.index == 0
                  && y.s.rx.value.names == x.offers[g].names && y.s.rx.value.path == r.path)
  {
    assert OfferFits(x, x.offers[g]);
  }

  lemma NothingOpen(x: System)
    requires Accounted(x) && !Receiving?(x.s)
    ensures x.s.folder.Keys == NamesBefore(x, |x.log|)
  {
    assert x.log[..|x.log|] == x.log;
  }

  lemma FinishNamed(named: Naming, x: System, env: FinishEnv, next: Created)
    requires Good(x) && x.gap && Rises(named) && NamedBy(named, x) && CanFinish(x.s, env)
    requires Saved(x.s).rx.Some? ==>
               && FreshName(Saved(x.s).folder, next)
               && NamesRight(named, Saved(x.s).folder, Saved(x.s).rx.value.names[Saved(x.s).rx.value.index], next)
    ensures NamedBy(named, FinishStep(x, env, next))
  {
    var y := FinishStep(x, env, next);
    var z := x.(s := Saved(x.s), gap := false, got := [], log := y.log);
    SavedAccounted(x, z);
    NothingOpen(z);
    SavedNamed(named, x, z);
    FinishSticksNothing(x, env, next);
    OpenedNamed(named, z, y);
  }

  lemma FinishSticksNothing(x: System, env: FinishEnv, next: Created)
    requires Good(x) && x.gap && CanFinish(x.s, env)
    requires Saved(x.s).rx.Some? ==> FreshName(Saved(x.s).folder, next)
    ensures FinishStep(x, env, next).stuck == x.stuck
  {
    PartDiffers(x.s.rx.value.path);
  }

  // --- What a batch remembers ---

  // Record j of the last n.
  function OfLast(log: seq<Record>, n: nat, j: nat): Record
    requires j < n <= |log|
  {
    log[|log| - n + j]
  }

  // The latest records are the first files of one batch, under these names and paths.
  ghost predicate Tail(log: seq<Record>, id: string, names: seq<Name>, paths: seq<Name>)
  {
    && |paths| <= |log| && |paths| <= |names|
    && forall j {:trigger OfLast(log, |paths|, j)} :: 0 <= j < |paths| ==>
         var rec := OfLast(log, |paths|, j);
         rec.path == paths[j] && rec.name == names[j] && rec.id == id && rec.index == j
  }

  // What the batch remembers as saved is what was saved of it: the latest records.
  ghost predicate Gathered(x: System)
  {
    x.s.rx.Some? ==>
      var rx := x.s.rx.value;
      Tail(x.log, rx.id, rx.names, rx.saved) && |rx.saved| == rx.index
  }

  lemma SavedGathered(x: System, env: FinishEnv, next: Created)
    requires Good(x) && x.gap && Gathered(x) && CanFinish(x.s, env)
    ensures var rx := x.s.rx.value; Tail(FinishStep(x, env, next).log, rx.id, rx.names, rx.saved + [rx.path])
    ensures Gathered(FinishStep(x, env, next))
  {
    var rx := x.s.rx.value;
    var y := FinishStep(x, env, next);
    TailGrows(x.log, rx.names, rx.saved, RecordOf(rx, x.got));
    assert y.log == x.log + [RecordOf(rx, x.got)];
    assert y.s.rx.Some? ==> y.s.rx.value.saved == rx.saved + [rx.path] && y.s.rx.value.index == rx.index + 1;
    assert y.s.rx.Some? ==> y.s.rx.value.id == rx.id && y.s.rx.value.names == rx.names;
  }

  lemma TailGrows(log: seq<Record>, names: seq<Name>, paths: seq<Name>, rec: Record)
    requires Tail(log, rec.id, names, paths) && rec.index == |paths| < |names| && rec.name == names[rec.index]
    ensures Tail(log + [rec], rec.id, names, paths + [rec.path])
  {
    var longer, more := log + [rec], paths + [rec.path];
    forall j | 0 <= j < |more|
      ensures var r := OfLast(longer, |more|, j);
              r.path == more[j] && r.name == names[j] && r.id == rec.id && r.index == j
    {
      if j < |paths| {
        assert OfLast(longer, |more|, j) == OfLast(log, |paths|, j);
      }
    }
  }

  // Until it is finished, a file changes nothing of what is gathered.
  lemma SameGathered(x: System, y: System)
    requires Gathered(x) && y.log == x.log
    requires y.s.rx.Some? ==> x.s.rx.Some? && y.s.rx.value == x.s.rx.value.(written := y.s.rx.value.written)
    ensures Gathered(y)
  {
  }

  lemma BeginGathered(x: System, g: nat, r: Created)
    requires Good(x) && Gathered(x) && g in x.offers && x.offers[g].Asked?
    ensures Gathered(BeginStep(x, g, r))
  {
  }

  // --- Every run ---

  // All that is kept: the invariant of ReceiveRuns, the names, and what is gathered.
  ghost predicate Proper(x: System) { Good(x) && Recorded(NamedIn, x) }

  ghost predicate Recorded(named: Naming, x: System) { NamedBy(named, x) && Gathered(x) }

  // A step that opens no file and completes none.
  lemma QuietStep(named: Naming, x: System, y: System)
    requires Rises(named) && Recorded(named, x)
    requires y.before == x.before && y.log == x.log && x.stuck <= y.stuck
    requires y.s.rx.Some? ==> x.s.rx.Some? && y.s.rx.value == x.s.rx.value.(written := y.s.rx.value.written)
    ensures Recorded(named, y)
  {
    SameNamed(named, x, y);
    SameGathered(x, y);
  }

  lemma BeginRecords(named: Naming, x: System, g: nat, r: Created)
    requires Good(x) && Rises(named) && Recorded(named, x)
    requires g in x.offers && x.offers[g].Asked? && x.offers[g].names != []
    requires NamesRight(named, x.s.folder, x.offers[g].names[0], r)
    ensures Recorded(named, BeginStep(x, g, r))
  {
    BeginNamed(named, x, g, r);
    BeginGathered(x, g, r);
  }

  lemma FinishRecords(named: Naming, x: System, env: FinishEnv, next: Created)
    requires Good(x) && x.gap && Rises(named) && Recorded(named, x)
    requires CanFinish(x.s, env) && Saved(x.s).rx.Some? ==>
               && FreshName(Saved(x.s).folder, next)
               && NamesRight(named, Saved(x.s).folder, Saved(x.s).rx.value.names[Saved(x.s).rx.value.index], next)
    ensures Recorded(named, FinishStep(x, env, next))
  {
    if CanFinish(x.s, env) {
      FinishNamed(named, x, env, next);
      SavedGathered(x, env, next);
    } else {
      QuietStep(named, x, FinishStep(x, env, next));
    }
  }

  lemma BeginStepRecords(x: System, g: nat, cenv: CreateEnv)
    requires Good(x) && Recorded(NamedIn, x)
    ensures Recorded(NamedIn, Step(x, Begin(g, cenv)))
  {
    if g in x.offers && x.offers[g].Asked? && x.offers[g].names != [] {
      var name := x.offers[g].names[0];
      CreateAnswers(x.s.folder, name, cenv);
      var r := CreateResult(x.s.folder, name, cenv);
      assert Step(x, Begin(g, cenv)) == BeginStep(x, g, r);
      BeginRecords(NamedIn, x, g, r);
    }
  }

  lemma CreateAnswers(folder: Folder, name: Name, cenv: CreateEnv)
    ensures Rises(NamedIn)
    ensures FreshName(folder, CreateResult(folder, name, cenv))
    ensures NamesRight(NamedIn, folder, name, CreateResult(folder, name, cenv))
  {
    NamedInRises();
    CreatesFresh(folder, name, cenv);
    if CreateResult(folder, name, cenv).Opened? {
      CreateNames(folder, name, cenv);
    }
  }

  lemma FinishStepRecords(x: System, env: FinishEnv, cenv: CreateEnv)
    requires Good(x) && x.gap && Recorded(NamedIn, x)
    ensures Recorded(NamedIn, FinishStep(x, env, NextCreated(x.s, env, cenv)))
  {
    var next := NextAnswers(x.s, env, cenv);
    FinishRecords(NamedIn, x, env, next);
  }

  lemma StepIsFinish(x: System, env: FinishEnv, cenv: CreateEnv)
    requires Indexed(x.s)
    ensures Step(x, Finish(env, cenv)) == if x.gap then FinishStep(x, env, NextCreated(x.s, env, cenv)) else x
  {
  }

  lemma NextAnswers(s: State, env: FinishEnv, cenv: CreateEnv) returns (next: Created)
    requires Indexed(s)
    ensures next == NextCreated(s, env, cenv) && Rises(NamedIn)
    ensures CanFinish(s, env) && Saved(s).rx.Some? ==>
              && FreshName(Saved(s).folder, next)
              && NamesRight(NamedIn, Saved(s).folder, Saved(s).rx.value.names[Saved(s).rx.value.index], next)
  {
    NamedInRises();
    next := NextCreated(s, env, cenv);
    if CanFinish(s, env) {
      var z := Saved(s);
      if z.rx.Some? {
        CreateAnswers(z.folder, z.rx.value.names[z.rx.value.index], cenv);
      }
    }
  }

  lemma StepRecords(x: System, a: Action)
    requires Good(x) && Recorded(NamedIn, x)
    ensures Recorded(NamedIn, Step(x, a))
  {
    if a.Begin? {
      BeginStepRecords(x, a.g, a.cenv);
    } else if a.Finish? {
      StepIsFinish(x, a.fenv, a.nenv);
      if x.gap {
        FinishStepRecords(x, a.fenv, a.nenv);
      }
    } else {
      QuietStepRecords(x, a);
    }
  }

  lemma QuietStepRecords(x: System, a: Action)
    requires Good(x) && Recorded(NamedIn, x) && !a.Begin? && !a.Finish?
    ensures Recorded(NamedIn, Step(x, a))
  {
    NamedInRises();
    QuietStepIs(x, a);
    QuietStep(NamedIn, x, Step(x, a));
  }

  lemma QuietStepIs(x: System, a: Action)
    requires Good(x) && !a.Begin? && !a.Finish?
    ensures var y := Step(x, a);
            && y.before == x.before && y.log == x.log && x.stuck <= y.stuck
            && (y.s.rx.Some? ==>
                  x.s.rx.Some? && y.s.rx.value == x.s.rx.value.(written := y.s.rx.value.written))
  {
    if OffersStep?(a) {
      StepIsOffersStep(x, a);
      OffersStepFrame(x, a);
    }
  }

  lemma StepProper(x: System, a: Action)
    requires Proper(x)
    ensures Proper(Step(x, a))
  {
    StepKeeps(x, a);
    StepRecords(x, a);
  }

  lemma StartIsProper(folder: Folder)
    ensures Proper(Start(folder))
  {
    StartIsGood(folder);
  }

  lemma RunIsProper(x: System, actions: seq<Action>)
    requires Proper(x)
    ensures Proper(Run(Next, x, actions))
  {
    forall z, a | Proper(z)
      ensures Proper(Next(z, a))
    {
      StepProper(z, a);
    }
    RunKeeps(Next, x, actions, Proper, _ => true);
  }

  lemma ReachedIsProper(folder: Folder, actions: seq<Action>)
    ensures Proper(Reached(folder, actions)) && Reached(folder, actions).before == folder
  {
    StartIsProper(folder);
    RunIsProper(Start(folder), actions);
    ReachedIsGood(folder, actions);
  }
}
