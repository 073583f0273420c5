/** Sending a batch and receiving it: the viewer's loops
    (frontend/src/composables/useFileTransfer.ts) against the host's session. */
module RoundTrip {
  import opened Prelude
  import opened SafeNames
  import opened Messages
  import opened Destination
  import opened Receive
  import opened ReceiveNames
  import opened ReceiveRuns
  import opened Runs
  import opened Utf8

  type Bytes = seq<byte>

  // --- The viewer ---

  // slice(from, from + n), which stops at the end of the file.
  function Slice(content: Bytes, from: nat, n: nat): (s: Bytes)
    requires from <= |content|
    ensures |s| == Min(n, |content| - from)
  {
    content[from..Min(from + n, |content|)]
  }

  // The frames a file is sent as from an offset on.
  function FileFrames(content: Bytes, offset: nat, n: nat): seq<Bytes>
    requires n > 0
    decreases |content| - offset
  {
    if offset >= |content| then []
    else [Slice(content, offset, n)] + FileFrames(content, offset + |Slice(content, offset, n)|, n)
  }

  function BatchFrames(contents: seq<Bytes>, n: nat): seq<Bytes>
    requires n > 0
  {
    if contents == [] then [] else FileFrames(contents[0], 0, n) + BatchFrames(contents[1..], n)
  }

  // sendFile, when nothing interrupts it.
  method SendFile(content: Bytes, n: nat) returns (frames: seq<Bytes>)
    requires n > 0
    ensures frames == FileFrames(content, 0, n)
  {
    frames := [];
    var offset := 0;
    while offset < |content|
      invariant 0 <= offset <= |content| && frames + FileFrames(content, offset, n) == FileFrames(content, 0, n)
    {
      var chunk := Slice(content, offset, n);
      frames := frames + [chunk];
      offset := offset + |chunk|;
    }
  }

  // runBatch, once the host has accepted.
  method RunBatch(contents: seq<Bytes>, n: nat) returns (frames: seq<Bytes>)
    requires n > 0
    ensures frames == BatchFrames(contents, n)
  {
    frames := [];
    var index := 0;
    while index < |contents|
      invariant 0 <= index <= |contents| && frames + BatchFrames(contents[index..], n) == BatchFrames(contents, n)
    {
      var one := SendFile(contents[index], n);
      assert contents[index..][1..] == contents[index + 1..];
      frames := frames + one;
      index := index + 1;
    }
  }

  // --- The channel: ordered and reliable, one frame after the other ---

  // handleChunk, and finishFile if the chunk completed a file. No write fails.
  ghost function Deliver(x: System, data: Bytes): System
  {
    Next(Next(x, Chunk(data, WRITE_OK)), Finish(FINISH_OK, NO_FAILURE))
  }

  // What the proofs by induction know of the host: the states its runs reach, and
  // when Create finds a name for a file.
  datatype Host = Host(good: System -> bool, finds: (Folder, Name) -> bool)

  ghost predicate Finds(folder: Folder, name: Name) { CreateResult(folder, name, NO_FAILURE).Opened? }

  ghost function TheHost(): Host { Host(Good, Finds) }

  // Between two frames, in one of those states.
  ghost predicate Ready(h: Host, x: System)
  {
    h.good(x) && Indexed(x.s) && !x.gap && (x.s.rx.Some? ==> x.s.rx.value.open)
  }

  ghost predicate Writing(h: Host, x: System) { Ready(h, x) && x.s.rx.Some? }

  // What does not concern the batch stays.
  ghost predicate SameSession(x: System, y: System)
  {
    y.before == x.before && y.stuck == x.stuck && y.offers == x.offers && y.s.closed == x.s.closed
  }

  // From x to y, the file being written is saved as `rec` and the next one opened,
  // if there is one and Create finds a name for it.
  ghost predicate Advanced(h: Host, x: System, y: System, rec: Record)
    requires Indexed(x.s) && Receiving?(x.s)
  {
    var rx := x.s.rx.value;
    && Ready(h, y) && SameSession(x, y) && y.got == [] && y.log == x.log + [rec]
    && rec.id == rx.id && rec.index == rx.index && rec.name == rx.names[rx.index]
    && (y.s.rx.Some? ==>
          && !LastOfBatch(rx)
          && y.s.rx.value == rx.(saved := rx.saved + [rx.path], index := rx.index + 1, written := 0,
                                 path := y.s.rx.value.path))
    && (y.s.rx.None? && !LastOfBatch(rx) ==> !h.finds(y.s.folder, rx.names[rx.index + 1]))
  }

  // From x to y, one more chunk of the file being written.
  ghost predicate Parted(h: Host, x: System, y: System, data: Bytes)
  {
    && Writing(h, x) && Writing(h, y) && SameSession(x, y) && y.log == x.log && y.got == x.got + [data]
    && y.s.rx.value == x.s.rx.value.(written := x.s.rx.value.written + |data|)
  }

  // What is missing of the file being written.
  function Missing(s: State): int
    requires Indexed(s) && s.rx.Some?
  {
    s.rx.value.sizes[s.rx.value.index] - s.rx.value.written
  }

  // What a delivery does: add to the file, complete it, or drop the frame.
  ghost predicate Delivery(h: Host, deliver: (System, Bytes) -> System)
  {
    && (forall x, d {:trigger deliver(x, d)} ::
          Writing(h, x) && |d| < Missing(x.s) ==> Parted(h, x, deliver(x, d), d))
    && (forall x, d {:trigger deliver(x, d)} ::
          Writing(h, x) && |d| == Missing(x.s) ==>
            Advanced(h, x, deliver(x, d), RecordOf(x.s.rx.value, x.got + [d])))
    && (forall x, d {:trigger deliver(x, d)} :: Ready(h, x) && x.s.rx.None? ==> deliver(x, d) == x)
  }

  lemma DeliverPart(x: System, data: Bytes)
    requires Writing(TheHost(), x) && |data| < Missing(x.s)
    ensures Parted(TheHost(), x, Deliver(x, data), data)
  {
    var y := ChunkStep(x, data, WRITE_OK);
    ChunkKeeps(x, data, WRITE_OK);
    assert Next(x, Chunk(data, WRITE_OK)) == y;
    assert Next(y, Finish(FINISH_OK, NO_FAILURE)) == y;
  }

  lemma FinishAdvances(w: System)
    requires Good(w) && w.gap && Receiving?(w.s)
    ensures Advanced(TheHost(), w, Next(w, Finish(FINISH_OK, NO_FAILURE)), RecordOf(w.s.rx.value, w.got))
  {
    FinishStepKeeps(w, FINISH_OK, NO_FAILURE);
    NothingStuck(w);
  }

  lemma NothingStuck(w: System)
    requires Good(w) && w.gap && Receiving?(w.s)
    ensures CanFinish(w.s, FINISH_OK)
    ensures Next(w, Finish(FINISH_OK, NO_FAILURE)) == FinishStep(w, FINISH_OK, NextCreated(w.s, FINISH_OK, NO_FAILURE))
    ensures Next(w, Finish(FINISH_OK, NO_FAILURE)).stuck == w.stuck
  {
    FinishStepKeeps(w, FINISH_OK, NO_FAILURE);
  }

  // The chunk that completes a file, just before finishFile is called.
  ghost predicate Completed(x: System, w: System, data: Bytes)
    requires Indexed(x.s) && x.s.rx.Some?
  {
    && w.gap && Indexed(w.s) && Receiving?(w.s) && SameSession(x, w) && w.log == x.log && w.got == x.got + [data]
    && w.s.rx.value == x.s.rx.value.(written := x.s.rx.value.written + |data|)
  }

  lemma LastChunk(x: System, data: Bytes) returns (w: System)
    requires Writing(TheHost(), x) && |data| == Missing(x.s)
    ensures w == Next(x, Chunk(data, WRITE_OK)) && Good(w) && Completed(x, w, data)
  {
    w := ChunkStep(x, data, WRITE_OK);
    ChunkKeeps(x, data, WRITE_OK);
  }

  lemma AfterLastChunk(h: Host, x: System, w: System, y: System, data: Bytes)
    requires Indexed(x.s) && Receiving?(x.s) && Completed(x, w, data)
    requires Advanced(h, w, y, RecordOf(w.s.rx.value, w.got))
    ensures Advanced(h, x, y, RecordOf(x.s.rx.value, x.got + [data]))
  {
  }

  lemma DeliverLast(x: System, data: Bytes)
    requires Writing(TheHost(), x) && |data| == Missing(x.s)
    ensures Advanced(TheHost(), x, Deliver(x, data), RecordOf(x.s.rx.value, x.got + [data]))
  {
    var w := LastChunk(x, data);
    FinishAdvances(w);
    AfterLastChunk(TheHost(), x, w, Deliver(x, data), data);
  }

  // With no batch, a frame is dropped.
  lemma DeliverDropped(x: System, data: Bytes)
    requires Ready(TheHost(), x) && x.s.rx.None?
    ensures Deliver(x, data) == x
  {
    assert ChunkStep(x, data, WRITE_OK) == x;
  }

  lemma DeliverIsDelivery()
    ensures Delivery(TheHost(), Deliver)
  {
    forall x, d | Writing(TheHost(), x) && |d| < Missing(x.s)
      ensures Parted(TheHost(), x, Deliver(x, d), d)
    {
      DeliverPart(x, d);
    }
    forall x, d | Writing(TheHost(), x) && |d| == Missing(x.s)
      ensures Advanced(TheHost(), x, Deliver(x, d), RecordOf(x.s.rx.value, x.got + [d]))
    {
      DeliverLast(x, d);
    }
    forall x, d | Ready(TheHost(), x) && x.s.rx.None?
      ensures Deliver(x, d) == x
    {
      DeliverDropped(x, d);
    }
  }

  lemma {:induction false} AllDropped(h: Host, deliver: (System, Bytes) -> System, x: System, frames: seq<Bytes>)
    requires Delivery(h, deliver) && Ready(h, x) && x.s.rx.None?
    ensures Run(deliver, x, frames) == x
    decreases |frames|
  {
    if frames == [] {
    } else {
      assert deliver(x, frames[0]) == x;
      AllDropped(h, deliver, x, frames[1..]);
    }
  }

  // --- One file ---

  lemma PartThenRest(h: Host, x: System, y: System, z: System, data: Bytes, rest: seq<Bytes>)
    requires Parted(h, x, y, data) && Advanced(h, y, z, RecordOf(y.s.rx.value, y.got + rest))
    ensures Advanced(h, x, z, RecordOf(x.s.rx.value, x.got + ([data] + rest)))
  {
    assert y.got + rest == x.got + ([data] + rest);
  }

  lemma {:induction false} FileArrives(h: Host, deliver: (System, Bytes) -> System, x: System,
                                       content: Bytes, offset: nat, n: nat)
    requires Delivery(h, deliver) && n > 0
    requires Writing(h, x) && offset < |content| && Missing(x.s) == |content| - offset
    ensures Advanced(h, x, Run(deliver, x, FileFrames(content, offset, n)),
                     RecordOf(x.s.rx.value, x.got + FileFrames(content, offset, n)))
    decreases |content| - offset
  {
    var data := Slice(content, offset, n);
    var rest := FileFrames(content, offset + |data|, n);
    var y := deliver(x, data);
    RunOne(deliver, x, data, rest);
    if offset + |data| < |content| {
      assert Parted(h, x, y, data);
      FileArrives(h, deliver, y, content, offset + |data|, n);
      PartThenRest(h, x, y, Run(deliver, y, rest), data, rest);
    } else {
      assert Advanced(h, x, y, RecordOf(x.s.rx.value, x.got + [data]));
      assert rest == [] && [data] + rest == [data];
    }
  }

  // The frames of a file are the file.
  lemma {:induction false} FramesAreTheFile(content: Bytes, offset: nat, n: nat)
    requires n > 0 && offset <= |content|
    ensures Concat(FileFrames(content, offset, n)) == content[offset..]
    decreases |content| - offset
  {
    if offset == |content| {
    } else {
      var data := Slice(content, offset, n);
      var rest := FileFrames(content, offset + |data|, n);
      FramesAreTheFile(content, offset + |data|, n);
      ConcatFront(data, rest);
    }
  }

  // No frame is empty or longer than a chunk, and only the last may be shorter.
  lemma {:induction false} FramesAreChunks(content: Bytes, offset: nat, n: nat, i: nat)
    requires n > 0 && offset <= |content| && i < |FileFrames(content, offset, n)|
    ensures var frames := FileFrames(content, offset, n);
            1 <= |frames[i]| <= n && (i < |frames| - 1 ==> |frames[i]| == n)
    decreases |content| - offset
  {
    if i == 0 {
    } else {
      FramesAreChunks(content, offset + |Slice(content, offset, n)|, n, i - 1);
    }
  }

  lemma {:induction false} ConcatFront(first: Bytes, rest: seq<Bytes>)
    ensures Concat([first] + rest) == first + Concat(rest)
  {
    if rest == [] {
      assert [first] + rest == [first] && [first][..0] == [];
    } else {
      assert ([first] + rest)[..|rest|] == [first] + rest[..|rest| - 1];
      ConcatFront(first, rest[..|rest| - 1]);
    }
  }

  // --- A whole batch ---

  // File i of those that were left is saved, for its own name and from exactly its own
  // frames.
  ghost predicate FileSaved(x: System, y: System, contents: seq<Bytes>, n: nat, i: nat)
    requires n > 0 && Indexed(x.s) && x.s.rx.Some? && i < |contents| <= |x.s.rx.value.names| - x.s.rx.value.index
    requires |x.log| + i < |y.log|
  {
    var rec := y.log[|x.log| + i];
    && rec.id == x.s.rx.value.id && rec.index == x.s.rx.value.index + i
    && rec.name == x.s.rx.value.names[x.s.rx.value.index + i]
    && rec.size == |contents[i]| && rec.chunks == FileFrames(contents[i], 0, n)
  }

  ghost predicate SavedInOrder(x: System, y: System, contents: seq<Bytes>, n: nat, k: nat)
    requires n > 0 && Indexed(x.s) && x.s.rx.Some? && k <= |contents| <= |x.s.rx.value.names| - x.s.rx.value.index
  {
    && |y.log| == |x.log| + k && x.log <= y.log
    && forall i {:trigger FileSaved(x, y, contents, n, i)} :: 0 <= i < k ==> FileSaved(x, y, contents, n, i)
  }

  // From x to y, the first k of the files that were left are saved, each from
  // exactly its own frames, and there was no free name for the next one, if any.
  ghost predicate Arrived(h: Host, x: System, y: System, contents: seq<Bytes>, n: nat, k: nat)
    requires n > 0 && Indexed(x.s) && x.s.rx.Some? && k <= |contents| <= |x.s.rx.value.names| - x.s.rx.value.index
  {
    && Ready(h, y) && SameSession(x, y) && y.s.rx.None?
    && SavedInOrder(x, y, contents, n, k)
    && (k < |contents| ==> !h.finds(y.s.folder, x.s.rx.value.names[x.s.rx.value.index + k]))
  }

  ghost predicate Expecting(h: Host, x: System, contents: seq<Bytes>)
  {
    && Writing(h, x) && x.got == [] && x.s.rx.value.written == 0
    && |contents| == |x.s.rx.value.names| - x.s.rx.value.index
    && forall i {:trigger contents[i]} :: 0 <= i < |contents| ==>
         x.s.rx.value.sizes[x.s.rx.value.index + i] == |contents[i]| > 0
  }

  lemma {:induction false} BatchArrives(h: Host, deliver: (System, Bytes) -> System, x: System,
                                        contents: seq<Bytes>, n: nat) returns (k: nat)
    requires Delivery(h, deliver) && n > 0 && Expecting(h, x, contents)
    ensures 1 <= k <= |contents| && Arrived(h, x, Run(deliver, x, BatchFrames(contents, n)), contents, n, k)
    decreases |contents|
  {
    var one := FileFrames(contents[0], 0, n);
    var rest := BatchFrames(contents[1..], n);
    var z := FirstArrives(h, deliver, x, contents, n);
    var y := Run(deliver, x, BatchFrames(contents, n));
    assert y == Run(deliver, z, rest) by {
      RunOfTwoParts(deliver, x, one, rest);
    }
    if z.s.rx.None? {
      AllDropped(h, deliver, z, rest);
      NoMoreSaved(h, x, y, contents, n);
      k := 1;
    } else {
      NextExpected(h, x, z, contents, one);
      var j := BatchArrives(h, deliver, z, contents[1..], n);
      k := j + 1;
      OneMoreSaved(h, x, z, y, contents, n, j);
    }
  }

  lemma FirstArrives(h: Host, deliver: (System, Bytes) -> System, x: System,
                     contents: seq<Bytes>, n: nat) returns (z: System)
    requires Delivery(h, deliver) && n > 0 && Expecting(h, x, contents)
    ensures contents != [] && z == Run(deliver, x, FileFrames(contents[0], 0, n))
    ensures Advanced(h, x, z, RecordOf(x.s.rx.value, FileFrames(contents[0], 0, n)))
  {
    var one := FileFrames(contents[0], 0, n);
    z := Run(deliver, x, one);
    FileArrives(h, deliver, x, contents[0], 0, n);
    assert x.got + one == one;
  }

  lemma NoMoreSaved(h: Host, x: System, z: System, contents: seq<Bytes>, n: nat)
    requires n > 0 && Expecting(h, x, contents) && contents != []
    requires Advanced(h, x, z, RecordOf(x.s.rx.value, FileFrames(contents[0], 0, n))) && z.s.rx.None?
    ensures Arrived(h, x, z, contents, n, 1)
  {
  }

  lemma NextExpected(h: Host, x: System, z: System, contents: seq<Bytes>, one: seq<Bytes>)
    requires Expecting(h, x, contents) && Advanced(h, x, z, RecordOf(x.s.rx.value, one)) && z.s.rx.Some?
    ensures contents != [] && Expecting(h, z, contents[1..])
  {
    forall i {:trigger contents[1..][i]} | 0 <= i < |contents[1..]|
      ensures z.s.rx.value.sizes[z.s.rx.value.index + i] == |contents[1..][i]| > 0
    {
      assert contents[1..][i] == contents[i + 1];
    }
  }

  lemma OneMoreSaved(h: Host, x: System, z: System, y: System, contents: seq<Bytes>, n: nat, j: nat)
    requires n > 0 && Expecting(h, x, contents)
    requires Advanced(h, x, z, RecordOf(x.s.rx.value, FileFrames(contents[0], 0, n))) && z.s.rx.Some?
    requires j + 1 <= |contents| && Arrived(h, z, y, contents[1..], n, j)
    ensures Arrived(h, x, y, contents, n, j + 1)
  {
    assert y.log[|x.log|] == z.log[|x.log|];
    forall i | 0 < i < j + 1
      ensures FileSaved(x, y, contents, n, i)
    {
      assert contents[i] == contents[1..][i - 1] && FileSaved(z, y, contents[1..], n, i - 1);
    }
  }

  // --- From the operator's yes to the last file ---

  // The contents are those the offer declares.
  predicate Declared(files: seq<FileMeta>, contents: seq<Bytes>)
  {
    |contents| == |files| && forall i :: 0 <= i < |files| ==> files[i].size == |contents[i]|
  }

  ghost predicate Agreed(x: System, g: nat, contents: seq<Bytes>)
  {
    && Proper(x) && !x.gap && !x.s.closed && g in x.offers && x.offers[g].Asked?
    && Declared(x.offers[g].m.files, contents)
  }

  // What begins is the batch offered, from its first file.
  ghost predicate Begins(x: System, o: Offer, y: System, contents: seq<Bytes>)
    requires o.Asked?
  {
    && Expecting(TheHost(), y, contents)
    && y.s.rx.value.id == o.m.id && y.s.rx.value.index == 0 && y.s.rx.value.names == o.names
  }

  lemma OfferedNames(x: System, g: nat, contents: seq<Bytes>)
    requires Agreed(x, g, contents)
    ensures |x.offers[g].names| == |contents| > 0 && x.s.rx.None? && CanBegin(x.s)
    ensures forall i :: 0 <= i < |contents| ==> Sizes(x.offers[g].m.files)[i] == |contents[i]| > 0
  {
    assert OfferFits(x, x.offers[g]);
    OfferIsDeclared(x.offers[g], contents);
  }

  lemma OfferIsDeclared(o: Offer, contents: seq<Bytes>)
    requires o.Asked? && IsUpload(o.m) && Declared(o.m.files, contents)
    ensures |contents| == |o.m.files| > 0
    ensures forall i :: 0 <= i < |contents| ==> Sizes(o.m.files)[i] == |contents[i]| > 0
  {
  }

  lemma OpensFirst(x: System, g: nat, contents: seq<Bytes>, r: Created)
    requires Agreed(x, g, contents) && FreshName(x.s.folder, r) && r.Opened?
    ensures Begins(x, x.offers[g], BeginStep(x, g, r), contents)
  {
    OfferedNames(x, g, contents);
    BeginKeeps(x, g, r);
  }

  lemma BatchBegins(x: System, g: nat, contents: seq<Bytes>)
    requires Agreed(x, g, contents)
    ensures var y := Next(x, Begin(g, NO_FAILURE));
            var o := x.offers[g];
            && Ready(TheHost(), y) && y.before == x.before && y.stuck == x.stuck && y.log == x.log
            && o.names != []
            && (Finds(x.s.folder, o.names[0]) ==> Begins(x, o, y, contents))
            && (!Finds(x.s.folder, o.names[0]) ==> y.s.rx.None? && y.s.folder == x.s.folder)
  {
    OfferedNames(x, g, contents);
    BeginStepIs(x, g, NO_FAILURE);
    var r := CreateResult(x.s.folder, x.offers[g].names[0], NO_FAILURE);
    CreatesFresh(x.s.folder, x.offers[g].names[0], NO_FAILURE);
    assert Next(x, Begin(g, NO_FAILURE)) == BeginStep(x, g, r);
    if r.Opened? {
      OpensFirst(x, g, contents, r);
    }
  }

  // --- Names on the way ---

  lemma DeliverProper(x: System, data: Bytes)
    requires Proper(x)
    ensures Proper(Deliver(x, data))
  {
    StepProper(x, Chunk(data, WRITE_OK));
    StepProper(Next(x, Chunk(data, WRITE_OK)), Finish(FINISH_OK, NO_FAILURE));
  }

  lemma UploadProper(x: System, g: nat, frames: seq<Bytes>)
    requires Proper(x)
    ensures Proper(Run(Deliver, Next(x, Begin(g, NO_FAILURE)), frames))
  {
    StepProper(x, Begin(g, NO_FAILURE));
    forall z, d | Proper(z)
      ensures Proper(Deliver(z, d))
    {
      DeliverProper(z, d);
    }
    RunKeeps(Deliver, Next(x, Begin(g, NO_FAILURE)), frames, Proper, _ => true);
  }

  // Record j of the log is file `index` of the batch `id`, agreed to under `name`; it is
  // on the disk under that name, numbered only as far as earlier ones were taken.
  ghost predicate IsSaved(named: Naming, z: System, j: nat, id: string, index: nat, name: Name, content: Bytes)
  {
    && j < |z.log| && z.log[j].id == id && z.log[j].index == index && z.log[j].name == name
    && z.log[j].path in z.s.folder && z.s.folder[z.log[j].path] == content && Concat(z.log[j].chunks) == content
    && named(NamesBefore(z, j), name, z.log[j].path)
  }

  // However the viewer cuts the files into frames, what the host has saved in the
  // end are the first k of them, in order, whole and for their names; and either these
  // are all, or Create found no name for the next one.
  lemma SendThenReceive(x: System, g: nat, contents: seq<Bytes>, n: nat) returns (k: nat)
    requires Agreed(x, g, contents) && n > 0
    ensures |x.offers[g].names| == |contents|
    ensures var z := Run(Deliver, Next(x, Begin(g, NO_FAILURE)), BatchFrames(contents, n));
            var o := x.offers[g];
            && k <= |contents| && Proper(z) && z.s.rx.None? && z.before == x.before && z.stuck == x.stuck
            && |z.log| == |x.log| + k && x.log <= z.log
            && (forall i :: 0 <= i < k ==> IsSaved(NamedIn, z, |x.log| + i, o.m.id, i, o.names[i], contents[i]))
            && (k < |contents| ==> !Finds(z.s.folder, o.names[k]))
  {
    OfferedNames(x, g, contents);
    var y := Next(x, Begin(g, NO_FAILURE));
    BatchBegins(x, g, contents);
    DeliverIsDelivery();
    if Finds(x.s.folder, x.offers[g].names[0]) {
      k := BegunThenReceive(x, y, x.offers[g], contents, n);
    } else {
      AllDropped(TheHost(), Deliver, y, BatchFrames(contents, n));
      k := 0;
    }
    UploadProper(x, g, BatchFrames(contents, n));
    ProperIsKept(Run(Deliver, y, BatchFrames(contents, n)));
    AllAreSaved(NamedIn, x, Run(Deliver, y, BatchFrames(contents, n)), x.offers[g], contents, n, k);
  }

  // What is recorded of file i.
  ghost predicate IsRecorded(x: System, z: System, o: Offer, contents: seq<Bytes>, n: nat, i: nat)
    requires n > 0 && o.Asked? && i < |contents| == |o.names| && |x.log| + i < |z.log|
  {
    var rec := z.log[|x.log| + i];
    && rec.id == o.m.id && rec.index == i && rec.name == o.names[i]
    && rec.size == |contents[i]| && rec.chunks == FileFrames(contents[i], 0, n)
  }

  ghost predicate AreRecorded(x: System, z: System, o: Offer, contents: seq<Bytes>, n: nat, k: nat)
    requires n > 0 && o.Asked? && k <= |contents| == |o.names|
  {
    && |z.log| == |x.log| + k
    && forall i :: 0 <= i < k ==> IsRecorded(x, z, o, contents, n, i)
  }

  lemma BegunThenReceive(x: System, y: System, o: Offer, contents: seq<Bytes>, n: nat) returns (k: nat)
    requires n > 0 && o.Asked? && Begins(x, o, y, contents) && Delivery(TheHost(), Deliver)
    requires y.before == x.before && y.stuck == x.stuck && y.log == x.log && |o.names| == |contents|
    ensures var z := Run(Deliver, y, BatchFrames(contents, n));
            && k <= |contents| && z.s.rx.None? && z.before == x.before && z.stuck == x.stuck && x.log <= z.log
            && AreRecorded(x, z, o, contents, n, k)
            && (k < |contents| ==> !TheHost().finds(z.s.folder, o.names[k]))
  {
    k := BatchArrives(TheHost(), Deliver, y, contents, n);
    var z := Run(Deliver, y, BatchFrames(contents, n));
    StoppedForAName(x, y, z, o, contents, n, k);
    RecordedInOrder(x, y, z, o, contents, n, k);
  }

  lemma StoppedForAName(x: System, y: System, z: System, o: Offer, contents: seq<Bytes>, n: nat, k: nat)
    requires n > 0 && o.Asked? && Begins(x, o, y, contents) && k <= |contents|
    requires Arrived(TheHost(), y, z, contents, n, k)
    ensures k < |contents| ==> !TheHost().finds(z.s.folder, o.names[k])
  {
  }

  lemma RecordedInOrder(x: System, y: System, z: System, o: Offer, contents: seq<Bytes>, n: nat, k: nat)
    requires n > 0 && Indexed(y.s) && y.s.rx.Some? && o.Asked? && k <= |contents| == |o.names|
    requires y.s.rx.value.id == o.m.id && y.s.rx.value.index == 0 && y.s.rx.value.names == o.names && y.log == x.log
    requires SavedInOrder(y, z, contents, n, k)
    ensures AreRecorded(x, z, o, contents, n, k)
  {
    forall i | 0 <= i < k
      ensures IsRecorded(x, z, o, contents, n, i)
    {
      assert FileSaved(y, z, contents, n, i);
    }
  }

  lemma ProperIsKept(z: System)
    requires Proper(z)
    ensures ReceiveRuns.Kept(z) && LogNamed(NamedIn, z)
  {
  }

  lemma AllAreSaved(named: Naming, x: System, z: System, o: Offer, contents: seq<Bytes>, n: nat, k: nat)
    requires n > 0 && o.Asked? && k <= |contents| == |o.names|
    requires ReceiveRuns.Kept(z) && LogNamed(named, z) && AreRecorded(x, z, o, contents, n, k)
    ensures forall i :: 0 <= i < k ==> IsSaved(named, z, |x.log| + i, o.m.id, i, o.names[i], contents[i])
  {
    forall i | 0 <= i < k
      ensures IsSaved(named, z, |x.log| + i, o.m.id, i, o.names[i], contents[i])
    {
      assert IsRecorded(x, z, o, contents, n, i);
      RecordedIsSaved(named, z, |x.log| + i, o.m.id, i, o.names[i], contents[i], n);
    }
  }

  lemma RecordedIsSaved(named: Naming, z: System, j: nat, id: string, index: nat, name: Name, content: Bytes, n: nat)
    requires n > 0 && ReceiveRuns.Kept(z) && LogNamed(named, z)
    requires j < |z.log| && z.log[j].id == id && z.log[j].index == index && z.log[j].name == name
    requires z.log[j].chunks == FileFrames(content, 0, n)
    ensures IsSaved(named, z, j, id, index, name, content)
  {
    assert z.log[j] in z.log && SavedWhole(z.log[j], z.s.folder);
    FramesAreTheFile(content, 0, n);
    assert content[0..] == content;
  }

  // --- When all of it arrives ---

  // A name SafeName need not look at twice: short, and with no white space but ASCII's.
  predicate PlainNames(files: seq<FileMeta>)
  {
    forall i :: 0 <= i < |files| ==> |files[i].name| <= MAX_NAME_BYTES && NoWideSpace(files[i].name)
  }

  // The name agreed to for file i.
  lemma {:induction false} AgreedName(files: seq<FileMeta>, i: nat)
    requires AllSafe(files) && i < |files|
    ensures SafeName(files[i].name) == Safe(Names(files)[i])
  {
    if i == |files| - 1 {
    } else {
      AgreedName(files[..|files| - 1], i);
    }
  }

  lemma PlainNameStays(files: seq<FileMeta>, i: nat)
    requires AllSafe(files) && i < |files| && PlainNames(files)
    ensures SafeName(Names(files)[i]) == Safe(Names(files)[i]) == SafeName(files[i].name)
  {
    AgreedName(files, i);
    SafeNameIdempotent(files[i].name);
  }

  // In a folder of fewer than fifty files by the end, every file of the batch is saved,
  // if no name offered is over 200 bytes or has white space outside ASCII.
  lemma SmallFolderRoundTrip(x: System, g: nat, contents: seq<Bytes>, n: nat)
    requires Agreed(x, g, contents) && n > 0 && |x.s.folder| + |contents| <= 50
    requires PlainNames(x.offers[g].m.files)
    ensures |x.offers[g].names| == |contents|
    ensures var z := Run(Deliver, Next(x, Begin(g, NO_FAILURE)), BatchFrames(contents, n));
            var o := x.offers[g];
            && |z.log| == |x.log| + |contents| && z.s.rx.None? && Proper(z)
            && forall i :: 0 <= i < |contents| ==> IsSaved(NamedIn, z, |x.log| + i, o.m.id, i, o.names[i], contents[i])
  {
    var k := SendThenReceive(x, g, contents, n);
    if k < |contents| {
      FolderGrows(x, Run(Deliver, Next(x, Begin(g, NO_FAILURE)), BatchFrames(contents, n)));
      OfferIsPlain(x, g, contents, k);
      RoomFor(Run(Deliver, Next(x, Begin(g, NO_FAILURE)), BatchFrames(contents, n)).s.folder, x.offers[g].names[k]);
    }
  }

  lemma OfferIsPlain(x: System, g: nat, contents: seq<Bytes>, k: nat)
    requires Agreed(x, g, contents) && PlainNames(x.offers[g].m.files) && k < |contents|
    ensures x.s.rx.None? && k < |x.offers[g].names| && SafeName(x.offers[g].names[k]).Safe?
  {
    OfferedNames(x, g, contents);
    assert OfferFits(x, x.offers[g]);
    PlainNameStays(x.offers[g].m.files, k);
  }

  lemma RoomFor(folder: Folder, name: Name)
    requires |folder| < 50 && SafeName(name).Safe?
    ensures Finds(folder, name)
  {
    SmallFolderHasRoom(folder, SafeName(name).name);
  }

  lemma FolderGrows(x: System, z: System)
    requires Good(x) && Good(z) && x.s.rx.None? && z.s.rx.None?
    requires z.before == x.before && z.stuck == x.stuck && x.log <= z.log
    ensures |z.s.folder| <= |x.s.folder| + |z.log| - |x.log|
  {
    KeysWhenIdle(x);
    KeysWhenIdle(z);
    KeysGrow(x.s.folder, z.s.folder, x.before.Keys + x.stuck, x.log, z.log);
  }

  lemma KeysWhenIdle(x: System)
    requires Accounted(x) && x.s.rx.None?
    ensures x.s.folder.Keys == (x.before.Keys + x.stuck) + LogPaths(x.log)
  {
  }

  lemma KeysGrow(f: Folder, g: Folder, base: set<Name>, log: seq<Record>, longer: seq<Record>)
    requires f.Keys == base + LogPaths(log) && g.Keys == base + LogPaths(longer) && log <= longer
    ensures |g| <= |f| + |longer| - |log|
  {
    var more := longer[|log|..];
    assert longer == log + more;
    PathsOfTwoParts(log, more);
    PathsAtMost(more);
    GrownBy(f.Keys, g.Keys, base, LogPaths(log), LogPaths(more));
    assert |g| == |g.Keys| && |f| == |f.Keys|;
  }

  lemma PathsOfTwoParts(a: seq<Record>, b: seq<Record>)
    ensures LogPaths(a + b) == LogPaths(a) + LogPaths(b)
  {
  }

  lemma GrownBy(f: set<Name>, g: set<Name>, base: set<Name>, a: set<Name>, b: set<Name>)
    requires f == base + a && g == base + (a + b)
    ensures |g| <= |f| + |b|
  {
    assert g == f + b;
    UnionAtMost(f, b);
  }

  lemma UnionAtMost<T>(a: set<T>, b: set<T>)
    ensures |a + b| <= |a| + |b|
  {
    assert a + b == a + (b - a);
    assert b == (b - a) + (b * a);
  }

  lemma {:induction false} PathsAtMost(log: seq<Record>)
    ensures |LogPaths(log)| <= |log|
  {
    if log == [] {
      assert LogPaths(log) == {};
    } else {
      PathsAtMost(log[1..]);
      assert log == [log[0]] + log[1..];
      assert LogPaths(log) == {log[0].path} + LogPaths(log[1..]);
      UnionAtMost({log[0].path}, LogPaths(log[1..]));
    }
  }

  // --- From nothing ---

  // An offer is made, claimed, and put to the operator.
  function Asking(m: Msg): seq<Action> { [Spawn(0, m), Claim(0), Check(0)] }

  lemma SpawnStep(x: System, m: Msg)
    requires Indexed(x.s) && !x.gap && x.offers == map[] && IsUpload(m)
    ensures Next(x, Spawn(0, m)) == x.(offers := map[0 := Spawned(m)])
  {
  }

  lemma ClaimStep(x: System, m: Msg)
    requires Indexed(x.s) && x.offers == map[0 := Spawned(m)] && !Busy(x.s)
    ensures Next(x, Claim(0)) == x.(s := x.s.(pending := true), offers := map[0 := Holding(m)])
  {
  }

  lemma CheckStep(x: System, m: Msg)
    requires Indexed(x.s) && x.offers == map[0 := Holding(m)] && AllSafe(m.files)
    requires WithinLimits(x.s, |m.files|, Sum(Sizes(m.files)))
    ensures Next(x, Check(0)) == x.(offers := map[0 := Asked(m, Names(m.files))])
  {
    StepIsOffersStep(x, Check(0));
    CheckAsks(x, m);
    OnlyKey(x.offers, Asked(m, Names(m.files)));
  }

  lemma CheckAsks(x: System, m: Msg)
    requires 0 in x.offers && x.offers[0] == Holding(m) && AllSafe(m.files)
    requires WithinLimits(x.s, |m.files|, Sum(Sizes(m.files)))
    ensures OffersStep(x, Check(0)) == x.(offers := x.offers[0 := Asked(m, Names(m.files))])
  {
  }

  lemma OnlyKey(offers: map<nat, Offer>, o: Offer)
    requires offers.Keys == {0}
    ensures offers[0 := o] == map[0 := o]
  {
  }

  // In a session just begun, a well-formed offer whose names are safe reaches the
  // operator.
  lemma OfferIsAsked(folder: Folder, m: Msg)
    requires IsUpload(m) && AllSafe(m.files)
    ensures Reached(folder, Asking(m))
         == Start(folder).(s := Fresh(folder).(pending := true), offers := map[0 := Asked(m, Names(m.files))])
  {
    var x0 := Start(folder);
    SpawnStep(x0, m);
    var x1 := Next(x0, Spawn(0, m));
    ClaimStep(x1, m);
    var x2 := Next(x1, Claim(0));
    CheckStep(x2, m);
    RunOfThree(Next, x0, Spawn(0, m), Claim(0), Check(0));
  }

  // Under which names, whole, and beside what, a batch has arrived.
  ghost predicate ArrivedAsOffered(folder: Folder, m: Msg, contents: seq<Bytes>, z: System)
    requires AllSafe(m.files) && |contents| == |m.files|
  {
    && |z.log| == |contents| && z.s.rx.None? && z.s.folder.Keys == folder.Keys + LogPaths(z.log)
    && forall i {:trigger contents[i]} :: 0 <= i < |contents| ==>
         && IsSaved(NamedIn, z, i, m.id, i, Names(m.files)[i], contents[i])
         && NumberedIn(folder.Keys + LogPaths(z.log[..i]), Names(m.files)[i], z.log[i].path)
  }

  lemma OfferIsAgreed(folder: Folder, m: Msg, contents: seq<Bytes>)
    requires IsUpload(m) && AllSafe(m.files) && Declared(m.files, contents)
    ensures var x := Reached(folder, Asking(m));
            && Agreed(x, 0, contents) && x.log == [] && x.stuck == {} && x.before == folder && x.s.folder == folder
            && x.offers[0] == Asked(m, Names(m.files))
  {
    OfferIsAsked(folder, m);
    ReachedIsProper(folder, Asking(m));
  }

  lemma AgreedArrives(x: System, m: Msg, contents: seq<Bytes>, n: nat)
    requires Agreed(x, 0, contents) && x.log == [] && x.stuck == {} && x.s.folder == x.before
    requires AllSafe(m.files) && x.offers[0] == Asked(m, Names(m.files))
    requires |x.before| + |contents| <= 50 && PlainNames(m.files) && n > 0
    ensures |contents| == |m.files|
    ensures ArrivedAsOffered(x.before, m, contents,
                             Run(Deliver, Next(x, Begin(0, NO_FAILURE)), BatchFrames(contents, n)))
  {
    SmallFolderRoundTrip(x, 0, contents, n);
    NothingElse(x, 0, contents, n);
    AllAsOffered(x.before, m, contents, Run(Deliver, Next(x, Begin(0, NO_FAILURE)), BatchFrames(contents, n)));
  }

  // From a fresh session to the last byte: every file of the batch ends up in the
  // folder, whole, under its safe name or that name numbered past the ones there
  // already, beside whatever was there and nothing else.
  lemma FreshSessionRoundTrip(folder: Folder, m: Msg, contents: seq<Bytes>, n: nat)
    requires IsUpload(m) && AllSafe(m.files) && Declared(m.files, contents) && n > 0
    requires |folder| + |contents| <= 50 && PlainNames(m.files)
    ensures var z := Run(Deliver, Next(Reached(folder, Asking(m)), Begin(0, NO_FAILURE)), BatchFrames(contents, n));
            ArrivedAsOffered(folder, m, contents, z)
  {
    OfferIsAgreed(folder, m, contents);
    AgreedArrives(Reached(folder, Asking(m)), m, contents, n);
  }

  lemma AllAsOffered(folder: Folder, m: Msg, contents: seq<Bytes>, z: System)
    requires AllSafe(m.files) && |contents| == |m.files| && PlainNames(m.files)
    requires |z.log| == |contents| && z.s.rx.None? && z.before == folder && z.stuck == {}
    requires z.s.folder.Keys == folder.Keys + LogPaths(z.log)
    requires forall i :: 0 <= i < |contents| ==> IsSaved(NamedIn, z, 0 + i, m.id, i, Names(m.files)[i], contents[i])
    ensures ArrivedAsOffered(folder, m, contents, z)
  {
    forall i | 0 <= i < |contents|
      ensures IsSaved(NamedIn, z, i, m.id, i, Names(m.files)[i], contents[i])
      ensures NumberedIn(folder.Keys + LogPaths(z.log[..i]), Names(m.files)[i], z.log[i].path)
    {
      assert IsSaved(NamedIn, z, 0 + i, m.id, i, Names(m.files)[i], contents[i]);
      PlainNameStays(m.files, i);
      assert NamesBefore(z, i) == folder.Keys + LogPaths(z.log[..i]);
    }
  }

  // When the batch is over, the folder holds what it did, what was saved, and no
  // partial file that was not left there before.
  lemma NothingElse(x: System, g: nat, contents: seq<Bytes>, n: nat)
    requires Agreed(x, g, contents) && n > 0
    ensures var z := Run(Deliver, Next(x, Begin(g, NO_FAILURE)), BatchFrames(contents, n));
            z.s.folder.Keys == (x.before.Keys + x.stuck) + LogPaths(z.log) && z.before == x.before && z.stuck == x.stuck
  {
    var k := SendThenReceive(x, g, contents, n);
    KeysWhenIdle(Run(Deliver, Next(x, Begin(g, NO_FAILURE)), BatchFrames(contents, n)));
  }

  // A name that can be saved, and that SafeName need not look at twice.
  predicate PlainName(name: Name) { |name| <= MAX_NAME_BYTES && NoWideSpace(name) && SafeName(name).Safe? }

  // One file of such a name, sent into an empty folder, is all there is in it then, under
  // its safe name.
  lemma OneFileArrives(m: Msg, name: Name, content: Bytes, n: nat)
    requires IsUpload(m) && m.files == [FileMeta(name, |content|)] && PlainName(name) && n > 0
    ensures var z := Run(Deliver, Next(Reached(map[], Asking(m)), Begin(0, NO_FAILURE)), BatchFrames([content], n));
            z.s.folder == map[SafeName(name).name := content]
  {
    OneNameIsSafe(m.files, name);
    FreshSessionRoundTrip(map[], m, [content], n);
    var x := Next(Reached(map[], Asking(m)), Begin(0, NO_FAILURE));
    OnlyOneThere(m, SafeName(name).name, content, Run(Deliver, x, BatchFrames([content], n)));
  }

  lemma FirstAsOffered(folder: Folder, m: Msg, contents: seq<Bytes>, z: System)
    requires AllSafe(m.files) && |contents| == |m.files| > 0 && ArrivedAsOffered(folder, m, contents, z)
    ensures |z.log| == |contents| && z.s.folder.Keys == folder.Keys + LogPaths(z.log)
    ensures z.log[0].path in z.s.folder && z.s.folder[z.log[0].path] == contents[0]
    ensures NumberedIn(folder.Keys + LogPaths(z.log[..0]), Names(m.files)[0], z.log[0].path)
  {
    assert IsSaved(NamedIn, z, 0, m.id, 0, Names(m.files)[0], contents[0]);
  }

  lemma OnlyOneThere(m: Msg, name: Name, content: Bytes, z: System)
    requires AllSafe(m.files) && |m.files| == 1 && Names(m.files) == [name]
    requires ArrivedAsOffered(map[], m, [content], z)
    ensures z.s.folder == map[name := content]
  {
    FirstAsOffered(map[], m, [content], z);
    var path := z.log[0].path;
    assert z.log[..0] == [] && z.log == [z.log[0]];
    NothingNumbered(name, path, LogPaths(z.log[..0]));
    OnlyKeyLeft(z.s.folder, path);
  }

  lemma OnlyKeyLeft(folder: Folder, path: Name)
    requires folder.Keys == {path}
    ensures folder == map[path := folder[path]]
  {
  }

  lemma NothingNumbered(name: Name, path: Name, none: set<Name>)
    requires none == {}
    requires var empty: Folder := map[]; NumberedIn(empty.Keys + none, name, path)
    ensures path == name
  {
    var empty: Folder := map[];
    assert empty.Keys + none == {};
    FirstName(name, path);
  }

  // There is such an offer, of a file named "a".
  lemma OneIsOffered(size: nat)
    requires 0 < size <= MAX_FILE_BYTES
    ensures IsUpload(BLANK.(t := "f-offer", id := "b", dir := "up", files := [FileMeta([0x61], size)]))
  {
    OneSize([FileMeta([0x61], size)]);
  }

  // With nothing there, no name is numbered.
  lemma FirstName(safe: Name, path: Name)
    requires NumberedIn({}, safe, path)
    ensures path == safe
  {
    var k: nat :| k <= MAX_COLLISIONS && FirstFree({}, safe, path, k);
    assert !TakenIn({}, Candidate(safe, 0));
  }

  lemma OneNameIsSafe(files: seq<FileMeta>, name: Name)
    requires |files| == 1 && files[0].name == name && PlainName(name)
    ensures AllSafe(files) && Names(files) == [SafeName(name).name] && PlainNames(files)
  {
    SafeIsKept(files, SafeName(name));
    OneIsPlain(files);
  }

  lemma SafeIsKept(files: seq<FileMeta>, safe: NameResult)
    requires |files| == 1 && safe == SafeName(files[0].name) && safe.Safe?
    ensures AllSafe(files) && Names(files) == [safe.name]
  {
    assert files[..0] == [];
  }

  lemma OneIsPlain(files: seq<FileMeta>)
    requires |files| == 1 && |files[0].name| <= MAX_NAME_BYTES && NoWideSpace(files[0].name)
    ensures PlainNames(files)
  {
  }

  lemma OneSize(files: seq<FileMeta>)
    requires |files| == 1
    ensures Sum(Sizes(files)) == files[0].size
  {
    assert Sizes(files)[..0] == [];
  }
}
