/** What passes between the capture and the encoder goroutines
    (host-agent/internal/capture/pipeline.go): a one-place mailbox whose jobs are
    merged rather than queued, and a pool of images that both goroutines use. One
    step is one operation on a channel, so the goroutines interleave freely. */
module Pipeline {
  import opened Prelude
  import opened Runs

  datatype Image = Image(id: nat, w: int, h: int)

  datatype Job = Job(at: int, img: Option<Image>, restart: bool, keyframe: bool)

  const POOL: int := 4

  // --- Merging ---

  // What send makes of the job it finds waiting and the one it brings.
  function Merge(prev: Job, j: Job): Job
  {
    Job(j.at, if j.img.None? then prev.img else j.img, j.restart || prev.restart, j.keyframe || prev.keyframe)
  }

  function MergeAll(jobs: seq<Job>): Job
    requires jobs != []
  {
    var last := |jobs| - 1;
    if last == 0 then jobs[0] else Merge(MergeAll(jobs[..last]), jobs[last])
  }

  // The queue of one place stands for the unbounded one.
  function Merged(jobs: seq<Job>): Option<Job> { if jobs == [] then None else Some(MergeAll(jobs)) }

  lemma MergeAssociative(a: Job, b: Job, c: Job)
    ensures Merge(Merge(a, b), c) == Merge(a, Merge(b, c))
  {
  }

  // A merged job has the newest time, every flag of any of its jobs, and the
  // picture of the newest job that has one.
  lemma {:induction false} MergedMeans(jobs: seq<Job>, k: nat)
    requires jobs != []
    ensures MergeAll(jobs).at == jobs[|jobs| - 1].at
    ensures MergeAll(jobs).restart <==> exists i :: 0 <= i < |jobs| && jobs[i].restart
    ensures MergeAll(jobs).keyframe <==> exists i :: 0 <= i < |jobs| && jobs[i].keyframe
    ensures k < |jobs| && jobs[k].img.Some? && (forall i :: k < i < |jobs| ==> jobs[i].img.None?)
            ==> MergeAll(jobs).img == jobs[k].img
    ensures (forall i :: 0 <= i < |jobs| ==> jobs[i].img.None?) ==> MergeAll(jobs).img == None
  {
    var last := |jobs| - 1;
    var front := jobs[..last];
    if last == 0 {
    } else {
      MergedMeans(front, k);
      if MergeAll(front).restart {
        var i :| 0 <= i < last && front[i].restart;
        assert jobs[i].restart;
      }
      if MergeAll(front).keyframe {
        var i :| 0 <= i < last && front[i].keyframe;
        assert jobs[i].keyframe;
      }
      if exists i :: 0 <= i < |jobs| && jobs[i].restart {
        var i :| 0 <= i < |jobs| && jobs[i].restart;
        assert i < last ==> front[i].restart;
      }
      if exists i :: 0 <= i < |jobs| && jobs[i].keyframe {
        var i :| 0 <= i < |jobs| && jobs[i].keyframe;
        assert i < last ==> front[i].keyframe;
      }
    }
  }

  // --- The machine ---

  // Where the capture goroutine is: between ticks, with or without a new encoder
  // due; in takeImage; converting into an image; and at the three selects of send,
  // the last two with the job it started from.
  datatype Capture =
    | Idle(due: bool)
    | Taking(j: Job, w: int, h: int)
    | Trying(j: Job)
    | Finding(j: Job)
    | Recycling(j: Job, prev: Image, asked: Job)
    | Putting(j: Job, asked: Job)

  // Where the encoder goroutine is: waiting with its current picture; with a job in
  // hand; encoding.
  datatype Encode = Waiting(cur: Option<Image>) | Handling(j: Job, cur: Option<Image>) | Encoding(img: Image) | Blank

  // What was sent, and of it what is in the mailbox: the jobs sent since the encoder
  // last received; which jobs each receive stood for, and what it got; and
  // whether a job was dropped.
  datatype History = History(sent: seq<Job>, queue: seq<Job>, groups: seq<seq<Job>>, got: seq<Job>, lost: bool)

  datatype State = State(slot: Option<Job>, free: seq<Image>, capture: Capture, encode: Encode,
                         next: nat, cancelled: bool, h: History)

  datatype Action =
    | Tick(at: int, load: bool, keyframe: bool, w: int, h: int)  // a job is made
    | Restart                                      // from now on, the next job starts an encoder
    | TakeImage                                    // one receive of takeImage, or an allocation
    | Try | Find | Recycle | Put | Drop            // the selects of send
    | Receive | Adopt | Encoded                    // the encoder
    | Cancel

  function Start(): State { State(None, [], Idle(true), Waiting(None), 0, false, History([], [], [], [], false)) }

  function Sent(h: History, j: Job): History { h.(sent := h.sent + [j], queue := h.queue + [j]) }

  function Taken(h: History, j: Job): History
  {
    h.(queue := [], groups := h.groups + [h.queue], got := h.got + [j])
  }

  // One select with a default, on a pool of four places.
  function Recycled(free: seq<Image>, img: Image): seq<Image>
  {
    if |free| < POOL then free + [img] else free
  }

  function CaptureStep(x: State, a: Action): State
  {
    match (a, x.capture)
    case (Tick(at, load, keyframe, w, h), Idle(due)) =>
      var j := Job(at, None, due, keyframe);
      if load || due then x.(capture := Taking(j, w, h)) else x.(capture := Trying(j))
    case (Restart, Idle(_)) => x.(capture := Idle(true))
    case (TakeImage, Taking(j, w, h)) =>
      if x.free == [] then
        x.(next := x.next + 1, capture := Trying(j.(img := Some(Image(x.next, w, h)))))
      else if x.free[0].w == w && x.free[0].h == h then
        x.(free := x.free[1..], capture := Trying(j.(img := Some(x.free[0]))))
      else x.(free := x.free[1..])
    case (Try, Trying(j)) =>
      if x.slot.None? then x.(slot := Some(j), capture := Idle(false), h := Sent(x.h, j))
      else x.(capture := Finding(j))
    case (Find, Finding(j)) =>
      if x.slot.None? then x.(capture := Putting(j, j))
      else
        var prev := x.slot.value;
        var merged := Merge(prev, j);
        if j.img.Some? && prev.img.Some? then x.(slot := None, capture := Recycling(merged, prev.img.value, j))
        else x.(slot := None, capture := Putting(merged, j))
    case (Recycle, Recycling(j, prev, asked)) => x.(free := Recycled(x.free, prev), capture := Putting(j, asked))
    case (Put, Putting(j, asked)) =>
      if x.slot.None? then x.(slot := Some(j), capture := Idle(false), h := Sent(x.h, asked)) else x
    case (Drop, Putting(j, asked)) =>
      if x.cancelled then x.(capture := Idle(false), h := x.h.(queue := [], lost := true)) else x
    case _ => x
  }

  function EncodeStep(x: State, a: Action): State
  {
    match (a, x.encode)
    case (Receive, Waiting(cur)) =>
      if x.slot.None? then x else x.(slot := None, encode := Handling(x.slot.value, cur), h := Taken(x.h, x.slot.value))
    case (Adopt, Handling(j, cur)) =>
      if j.img.Some? then
        x.(encode := Encoding(j.img.value), free := if cur.Some? then Recycled(x.free, cur.value) else x.free)
      else if cur.Some? then x.(encode := Encoding(cur.value))
      else x.(encode := Blank)
    case (Encoded, Encoding(img)) => x.(encode := Waiting(Some(img)))
    case (Encoded, Blank) => x.(encode := Waiting(None))
    case _ => x
  }

  function Step(x: State, a: Action): State
  {
    match a
    case Receive => EncodeStep(x, a)
    case Adopt => EncodeStep(x, a)
    case Encoded => EncodeStep(x, a)
    case Cancel => x.(cancelled := true)
    case _ => CaptureStep(x, a)
  }

  // --- The mailbox refines the queue ---

  ghost predicate Represents(x: State)
  {
    match x.capture
    case Putting(j, asked) =>
      x.slot == None && j == (if x.h.queue == [] then asked else Merge(MergeAll(x.h.queue), asked))
    case Recycling(j, _, asked) =>
      x.slot == None && x.h.queue != [] && j == Merge(MergeAll(x.h.queue), asked)
    case _ => x.slot == Merged(x.h.queue)
  }

  ghost predicate Conserved(x: State)
  {
    && |x.h.got| == |x.h.groups|
    && (forall i :: 0 <= i < |x.h.got| ==> x.h.groups[i] != [] && x.h.got[i] == MergeAll(x.h.groups[i]))
    && (!x.h.lost ==> x.h.sent == Concat(x.h.groups) + x.h.queue)
    && (x.h.lost ==> x.cancelled)
  }

  lemma OneMore(queue: seq<Job>, j: Job)
    ensures MergeAll(queue + [j]) == if queue == [] then j else Merge(MergeAll(queue), j)
  {
    assert (queue + [j])[..|queue|] == queue;
  }

  lemma SentKeepsHistory(x: State, y: State, j: Job)
    requires Conserved(x) && y.h == Sent(x.h, j) && y.cancelled == x.cancelled
    ensures Conserved(y)
  {
    assert Concat(x.h.groups) + (x.h.queue + [j]) == (Concat(x.h.groups) + x.h.queue) + [j];
  }

  lemma TryKeepsHistory(x: State, a: Action)
    requires Represents(x) && Conserved(x) && x.capture.Trying?
    ensures Represents(CaptureStep(x, a)) && Conserved(CaptureStep(x, a))
  {
    var y := CaptureStep(x, a);
    if y.h != x.h {
      OneMore(x.h.queue, x.capture.j);
      SentKeepsHistory(x, y, x.capture.j);
    }
  }

  lemma PutKeepsHistory(x: State, a: Action)
    requires Represents(x) && Conserved(x) && x.capture.Putting?
    ensures Represents(CaptureStep(x, a)) && Conserved(CaptureStep(x, a))
  {
    var y := CaptureStep(x, a);
    if a == Put {
      OneMore(x.h.queue, x.capture.asked);
      SentKeepsHistory(x, y, x.capture.asked);
    }
  }

  lemma OtherCaptureKeepsHistory(x: State, a: Action)
    requires Represents(x) && Conserved(x) && !x.capture.Trying? && !x.capture.Putting?
    ensures Represents(CaptureStep(x, a)) && Conserved(CaptureStep(x, a))
  {
  }

  lemma EncodeKeepsHistory(x: State, a: Action)
    requires Represents(x) && Conserved(x)
    ensures Represents(EncodeStep(x, a)) && Conserved(EncodeStep(x, a))
  {
    var y := EncodeStep(x, a);
    if y.h != x.h {
      TakenConserved(x, y);
    }
  }

  lemma TakenConserved(x: State, y: State)
    requires Conserved(x) && x.h.queue != [] && y.cancelled == x.cancelled && y.h == Taken(x.h, MergeAll(x.h.queue))
    ensures Conserved(y)
  {
    assert y.h.groups[..|x.h.groups|] == x.h.groups;
  }

  lemma StepKeepsHistory(x: State, a: Action)
    requires Represents(x) && Conserved(x)
    ensures Represents(Step(x, a)) && Conserved(Step(x, a))
  {
    if a.Receive? || a.Adopt? || a.Encoded? {
      EncodeKeepsHistory(x, a);
    } else if a != Cancel {
      if x.capture.Trying? {
        TryKeepsHistory(x, a);
      } else if x.capture.Putting? {
        PutKeepsHistory(x, a);
      } else {
        OtherCaptureKeepsHistory(x, a);
      }
    }
  }

  // --- Who holds which image ---

  function Has(img: Option<Image>, id: nat): nat { if img.Some? && img.value.id == id then 1 else 0 }

  function PoolHas(free: seq<Image>, id: nat): nat
  {
    if free == [] then 0 else PoolHas(free[..|free| - 1], id) + Has(Some(free[|free| - 1]), id)
  }

  function CaptureHas(c: Capture, id: nat): nat
  {
    match c
    case Idle(_) => 0
    case Taking(j, _, _) => Has(j.img, id)
    case Trying(j) => Has(j.img, id)
    case Finding(j) => Has(j.img, id)
    case Recycling(j, prev, _) => Has(j.img, id) + Has(Some(prev), id)
    case Putting(j, _) => Has(j.img, id)
  }

  function EncoderHas(e: Encode, id: nat): nat
  {
    match e
    case Waiting(cur) => Has(cur, id)
    case Handling(j, cur) => Has(j.img, id) + Has(cur, id)
    case Encoding(img) => Has(Some(img), id)
    case Blank => 0
  }

  function SlotHas(slot: Option<Job>, id: nat): nat { if slot.None? then 0 else Has(slot.value.img, id) }

  // In how many places an image is held.
  function Places(x: State, id: nat): nat
  {
    PoolHas(x.free, id) + SlotHas(x.slot, id) + CaptureHas(x.capture, id) + EncoderHas(x.encode, id)
  }

  ghost predicate Owned(x: State)
  {
    && (forall id: nat :: Places(x, id) <= if id < x.next then 1 else 0)
    && |x.free| <= POOL
    && (x.capture.Taking? ==> x.capture.j.img.None?)
  }

  lemma {:induction false} FirstOfPool(free: seq<Image>, id: nat)
    requires free != []
    ensures PoolHas(free, id) == Has(Some(free[0]), id) + PoolHas(free[1..], id)
  {
    var last := |free| - 1;
    if last == 0 {
      assert free[..0] == [] && free[1..] == [];
    } else {
      FirstOfPool(free[..last], id);
      assert free[..last][1..] == free[1..][..last - 1];
    }
  }

  lemma RecycledHas(free: seq<Image>, img: Image, id: nat)
    ensures PoolHas(Recycled(free, img), id) <= PoolHas(free, id) + Has(Some(img), id)
  {
    if |free| < POOL {
      assert (free + [img])[..|free|] == free;
    }
  }

  // No step holds an image in one place more: images move, go, or are new.
  lemma TakingMoves(x: State, a: Action, id: nat)
    requires Owned(x) && x.capture.Taking?
    ensures var y := CaptureStep(x, a);
            Places(y, id) <= Places(x, id) + if y.next == x.next + 1 && id == x.next then 1 else 0
  {
    if x.free != [] {
      FirstOfPool(x.free, id);
    }
  }

  lemma RecyclingMoves(x: State, a: Action, id: nat)
    requires x.capture.Recycling?
    ensures Places(CaptureStep(x, a), id) <= Places(x, id)
  {
    var c := x.capture;
    RecycledHas(x.free, c.prev, id);
    if a == Recycle {
      assert CaptureStep(x, a) == x.(free := Recycled(x.free, c.prev), capture := Putting(c.j, c.asked));
    } else {
      assert CaptureStep(x, a) == x;
    }
  }

  lemma SendingMoves(x: State, a: Action, id: nat)
    requires !x.capture.Taking? && !x.capture.Recycling?
    ensures Places(CaptureStep(x, a), id) <= Places(x, id)
  {
  }

  lemma CaptureOwned(x: State, a: Action)
    requires Owned(x)
    ensures Owned(CaptureStep(x, a))
  {
    var y := CaptureStep(x, a);
    forall id: nat
      ensures Places(y, id) <= Places(x, id) + if y.next == x.next + 1 && id == x.next then 1 else 0
    {
      if x.capture.Taking? {
        TakingMoves(x, a, id);
      } else if x.capture.Recycling? {
        RecyclingMoves(x, a, id);
      } else {
        SendingMoves(x, a, id);
      }
    }
    OwnedMoves(x, y);
  }

  lemma OwnedMoves(x: State, y: State)
    requires Owned(x) && x.next <= y.next && |y.free| <= POOL && (y.capture.Taking? ==> y.capture.j.img.None?)
    requires forall id: nat :: Places(y, id) <= Places(x, id) + if y.next == x.next + 1 && id == x.next then 1 else 0
    ensures Owned(y)
  {
  }

  lemma AdoptMoves(x: State, id: nat)
    requires x.encode.Handling?
    ensures Places(EncodeStep(x, Adopt), id) <= Places(x, id)
  {
    if x.encode.j.img.None? {
      AdoptOldMoves(x, id);
    } else if x.encode.cur.None? {
      AdoptFirstMoves(x, id);
    } else {
      AdoptNextMoves(x, id);
    }
  }

  lemma AdoptNextMoves(x: State, id: nat)
    requires x.encode.Handling? && x.encode.j.img.Some? && x.encode.cur.Some?
    ensures Places(EncodeStep(x, Adopt), id) <= Places(x, id)
  {
    var img, cur := x.encode.j.img.value, x.encode.cur.value;
    RecycledHas(x.free, cur, id);
    var y := x.(encode := Encoding(img), free := Recycled(x.free, cur));
    assert EncodeStep(x, Adopt) == y;
    ElsewhereSame(x, y, id);
  }

  lemma ElsewhereSame(x: State, y: State, id: nat)
    requires y.slot == x.slot && y.capture == x.capture
    requires PoolHas(y.free, id) + EncoderHas(y.encode, id) <= PoolHas(x.free, id) + EncoderHas(x.encode, id)
    ensures Places(y, id) <= Places(x, id)
  {
  }

  lemma AdoptOldMoves(x: State, id: nat)
    requires x.encode.Handling? && x.encode.j.img.None?
    ensures Places(EncodeStep(x, Adopt), id) == Places(x, id)
  {
  }

  lemma AdoptFirstMoves(x: State, id: nat)
    requires x.encode.Handling? && x.encode.j.img.Some? && x.encode.cur.None?
    ensures Places(EncodeStep(x, Adopt), id) == Places(x, id)
  {
  }

  lemma EncodeOwned(x: State, a: Action)
    requires Owned(x)
    ensures Owned(EncodeStep(x, a))
  {
    var y := EncodeStep(x, a);
    forall id: nat
      ensures Places(y, id) <= Places(x, id)
    {
      if a == Adopt && x.encode.Handling? {
        AdoptMoves(x, id);
      }
    }
    OwnedMoves(x, y);
  }

  lemma StepOwned(x: State, a: Action)
    requires Owned(x)
    ensures Owned(Step(x, a))
  {
    if a.Receive? || a.Adopt? || a.Encoded? {
      EncodeOwned(x, a);
    } else if a == Cancel {
      var y := x.(cancelled := true);
      forall id: nat
        ensures Places(y, id) == Places(x, id)
      {
      }
      OwnedMoves(x, y);
    } else {
      CaptureOwned(x, a);
    }
  }

  // --- The encoder always has a picture ---

  predicate Carries(j: Job) { j.restart ==> j.img.Some? }

  predicate CaptureCarries(c: Capture)
  {
    match c
    case Trying(j) => Carries(j)
    case Finding(j) => Carries(j)
    case Recycling(j, _, _) => Carries(j)
    case Putting(j, _) => Carries(j)
    case _ => true
  }

  predicate RestartDue(c: Capture)
  {
    match c
    case Idle(due) => due
    case Taking(j, _, _) => j.restart
    case Trying(j) => j.restart
    case Finding(j) => j.restart
    case Recycling(j, _, _) => j.restart
    case Putting(j, _) => j.restart
  }

  ghost predicate Pictured(x: State)
  {
    && CaptureCarries(x.capture) && (x.slot.Some? ==> Carries(x.slot.value))
    && (x.encode.Handling? ==> Carries(x.encode.j))
    && (!x.h.lost ==>
          && x.encode != Blank
          && (x.encode.Handling? && x.encode.cur.None? ==> x.encode.j.restart)
          && (x.encode == Waiting(None) ==>
                if x.slot.Some? then x.slot.value.restart else RestartDue(x.capture)))
  }

  lemma CapturePictured(x: State, a: Action)
    requires Pictured(x)
    ensures Pictured(CaptureStep(x, a))
  {
  }

  lemma EncodePictured(x: State, a: Action)
    requires Pictured(x)
    ensures Pictured(EncodeStep(x, a))
  {
  }

  // --- Every run ---

  ghost predicate Sound(x: State) { Represents(x) && Conserved(x) && Owned(x) && Pictured(x) }

  lemma StepSound(x: State, a: Action)
    requires Sound(x)
    ensures Sound(Step(x, a))
  {
    StepKeepsHistory(x, a);
    StepOwned(x, a);
    if a.Receive? || a.Adopt? || a.Encoded? {
      EncodePictured(x, a);
    } else if a != Cancel {
      CapturePictured(x, a);
    }
  }

  function Reached(actions: seq<Action>): State { Run(Step, Start(), actions) }

  lemma RunSound(actions: seq<Action>)
    ensures Sound(Run(Step, Start(), actions))
  {
    forall x, a | Sound(x)
      ensures Sound(Step(x, a))
    {
      StepSound(x, a);
    }
    RunKeeps(Step, Start(), actions, Sound, _ => true);
  }

  // Until a job is dropped, which only a cancelled capture does, the jobs sent are, in
  // order, those of the groups the encoder received and those still waiting; each
  // receive got the merge of its group, and what waits is the merge of the rest.
  lemma MailboxRefinesQueue(actions: seq<Action>, i: nat)
    ensures var x := Reached(actions);
            && (!x.h.lost ==> x.h.sent == Concat(x.h.groups) + x.h.queue) && (x.h.lost ==> x.cancelled)
            && |x.h.got| == |x.h.groups|
            && (i < |x.h.got| ==> x.h.groups[i] != [] && x.h.got[i] == MergeAll(x.h.groups[i]))
            && (x.capture.Idle? ==> x.slot == Merged(x.h.queue))
  {
    RunSound(actions);
    assert Represents(Reached(actions)) && Conserved(Reached(actions));
  }

  // The last select of send finds the mailbox empty: it never waits for the encoder.
  lemma LastSendNeverBlocks(actions: seq<Action>)
    requires Reached(actions).capture.Putting?
    ensures var x := Reached(actions); x.slot.None? && Step(x, Put).capture == Idle(false)
  {
    RunSound(actions);
    assert Represents(Reached(actions));
  }

  // The image the capture converts into is in no other place: not the one being
  // encoded or about to be, not in the mailbox, not in the pool.
  lemma ConvertedImageIsPrivate(actions: seq<Action>, id: nat)
    requires Reached(actions).capture.Trying? && Has(Reached(actions).capture.j.img, id) == 1
    ensures var x := Reached(actions);
            EncoderHas(x.encode, id) == 0 && SlotHas(x.slot, id) == 0 && PoolHas(x.free, id) == 0
  {
    RunSound(actions);
    assert Places(Reached(actions), id) <= 1;
  }

  // Nothing else holds the picture being encoded, so nothing can write it.
  lemma EncodedImageIsPrivate(actions: seq<Action>, id: nat)
    requires EncoderHas(Reached(actions).encode, id) > 0
    ensures var x := Reached(actions);
            CaptureHas(x.capture, id) == 0 && SlotHas(x.slot, id) == 0 && PoolHas(x.free, id) == 0
  {
    RunSound(actions);
    assert Places(Reached(actions), id) <= 1;
  }

  function Count(img: Option<Image>): nat { if img.Some? then 1 else 0 }

  // How many images there are at a time.
  function Live(x: State): nat
  {
    |x.free| + (if x.slot.None? then 0 else Count(x.slot.value.img))
    + (match x.capture
       case Idle(_) => 0
       case Taking(j, _, _) => Count(j.img)
       case Trying(j) => Count(j.img)
       case Finding(j) => Count(j.img)
       case Recycling(j, prev, _) => Count(j.img) + 1
       case Putting(j, _) => Count(j.img))
    + (match x.encode
       case Waiting(cur) => Count(cur)
       case Handling(j, cur) => Count(j.img) + Count(cur)
       case Encoding(_) => 1
       case Blank => 0)
  }

  lemma AtMostEightImages(actions: seq<Action>)
    ensures Live(Reached(actions)) <= 8
  {
    RunSound(actions);
    assert Represents(Reached(actions)) && Owned(Reached(actions));
  }

  // Until a job is dropped, which only a cancelled capture does, the encoder never has
  // a job and no picture, and a job that starts a new encoder brings its picture.
  lemma NeverWithoutAPicture(actions: seq<Action>)
    ensures var x := Reached(actions);
            && (x.slot.Some? ==> Carries(x.slot.value))
            && (!x.h.lost ==> x.encode != Blank)
            && (!x.h.lost && x.encode.Handling? && x.encode.cur.None? ==> x.encode.j.img.Some?)
            && (x.h.lost ==> x.cancelled)
  {
    RunSound(actions);
    assert Pictured(Reached(actions)) && Conserved(Reached(actions));
  }

  // --- What cancelling does ---

  // The encoder idle without a picture, the capture between ticks.
  predicate Begun(x: State, due: bool) { x.capture == Idle(due) && x.encode == Waiting(None) }

  lemma FirstJobSent(x: State, at: int)
    requires Begun(x, true) && x.slot.None? && x.free == []
    ensures var y := Run(Step, x, [Tick(at, true, false, 2, 2), TakeImage, Try]);
            Begun(y, false) && y.free == [] && y.slot.Some? && y.slot.value.img.Some? && y.cancelled == x.cancelled
  {
    RunOfThree(Step, x, Tick(at, true, false, 2, 2), TakeImage, Try);
  }

  lemma SecondJobFindsIt(x: State, at: int)
    requires Begun(x, false) && x.free == [] && x.slot.Some? && x.slot.value.img.Some?
    ensures var y := Run(Step, x, [Tick(at, true, false, 2, 2), TakeImage, Try]);
            y.capture.Finding? && y.capture.j.img.Some? && y.slot == x.slot && y.encode == x.encode
  {
    RunOfThree(Step, x, Tick(at, true, false, 2, 2), TakeImage, Try);
  }

  lemma BothAreDropped(x: State)
    requires x.capture.Finding? && x.capture.j.img.Some? && x.slot.Some? && x.slot.value.img.Some?
    requires x.encode == Waiting(None) && x.cancelled
    ensures var y := Run(Step, x, [Find, Recycle, Drop]); Begun(y, false) && y.slot.None?
  {
    RunOfThree(Step, x, Find, Recycle, Drop);
  }

  lemma ThirdJobHasNone(x: State, at: int)
    requires Begun(x, false) && x.slot.None?
    ensures var y := Run(Step, x, [Tick(at, false, false, 2, 2), Try, Receive]);
            y.encode.Handling? && y.encode.cur.None? && y.encode.j.img.None?
  {
    RunOfThree(Step, x, Tick(at, false, false, 2, 2), Try, Receive);
  }

  // Once cancelled, a send may drop its job, and with it the first picture; a job
  // that comes after leaves the encoder with none. There is no other way to that.
  lemma CancelledCanLoseThePicture(at: int) returns (actions: seq<Action>)
    ensures var x := Run(Step, Start(), actions);
            x.cancelled && x.encode.Handling? && Step(x, Adopt).encode == Blank
  {
    var one := [Tick(at, true, false, 2, 2), TakeImage, Try];
    var a := Run(Step, Start(), one);
    FirstJobSent(Start(), at);
    var b := Step(a, Cancel);
    var rest := LostFrom(b, at);
    assert Run(Step, a, [Cancel]) == b;
    RunOfTwoParts(Step, Start(), one, [Cancel]);
    RunOfTwoParts(Step, Start(), one + [Cancel], rest);
    actions := one + [Cancel] + rest;
  }

  lemma LostFrom(b: State, at: int) returns (rest: seq<Action>)
    requires Begun(b, false) && b.free == [] && b.slot.Some? && b.slot.value.img.Some? && b.cancelled
    ensures var x := Run(Step, b, rest); x.cancelled && x.encode.Handling? && Step(x, Adopt).encode == Blank
  {
    var two, drop, three := [Tick(at + 1, true, false, 2, 2), TakeImage, Try], [Find, Recycle, Drop],
      [Tick(at + 2, false, false, 2, 2), Try, Receive];
    var c := Run(Step, b, two);
    SecondJobFindsIt(b, at + 1);
    StaysCancelled(b, two);
    BothAreDropped(c);
    ThirdJobHasNone(Run(Step, c, drop), at + 2);
    RunOfTwoParts(Step, b, two, drop);
    RunOfTwoParts(Step, b, two + drop, three);
    rest := two + drop + three;
    StaysCancelled(b, rest);
  }

  lemma StaysCancelled(x: State, actions: seq<Action>)
    requires x.cancelled
    ensures Run(Step, x, actions).cancelled
  {
    RunKeeps(Step, x, actions, (z: State) => z.cancelled, _ => true);
  }

  // --- The pool by itself ---

  predicate Fits(img: Image, w: int, h: int) { img.w == w && img.h == h }

  // takeImage, when nothing is given back meanwhile: the first image that fits, those
  // before it thrown away; or, with none, a new one.
  function TakenFrom(free: seq<Image>, next: nat, w: int, h: int): (Image, seq<Image>)
  {
    if free == [] then (Image(next, w, h), [])
    else if Fits(free[0], w, h) then (free[0], free[1..])
    else TakenFrom(free[1..], next, w, h)
  }

  class ImagePool {
    var free: seq<Image>
    var next: nat

    constructor ()
      ensures free == [] && next == 0
    {
      free, next := [], 0;
    }

    method TakeImage(w: int, h: int) returns (img: Image)
      modifies this
      ensures (img, free) == TakenFrom(old(free), old(next), w, h)
      ensures next == if img == Image(old(next), w, h) && img !in old(free) then old(next) + 1 else old(next)
    {
      while free != []
        invariant TakenFrom(free, next, w, h) == TakenFrom(old(free), old(next), w, h) && next == old(next)
        invariant forall i :: 0 <= i < |old(free)| ==> old(free)[i] in free || !Fits(old(free)[i], w, h)
        invariant forall i :: 0 <= i < |free| ==> free[i] in old(free)
        decreases |free|
      {
        var first := free[0];
        assert free == [first] + free[1..];
        free := free[1..];
        if Fits(first, w, h) {
          return first;
        }
      }
      img := Image(next, w, h);
      next := next + 1;
    }

    method Recycle(img: Image)
      modifies this`free
      ensures free == Recycled(old(free), img)
    {
      if |free| < POOL {
        free := free + [img];
      }
    }
  }

  // The mailbox by itself, between two receives of the encoder.
  class Mailbox {
    var slot: Option<Job>
    const pool: ImagePool

    constructor (pool: ImagePool)
      ensures this.pool == pool && slot == None
    {
      this.pool, slot := pool, None;
    }

    // send; `taken` is whether the encoder takes the waiting job between the first
    // select and the second, and `dropped` whether the third finds the capture
    // cancelled and gives up.
    method Send(j: Job, taken: bool, dropped: bool)
      modifies this`slot, pool`free
      ensures old(slot).None? ==> slot == Some(j)
      ensures old(slot).Some? && dropped ==> slot == None
      ensures old(slot).Some? && !dropped ==> slot == Some(if taken then j else Merge(old(slot).value, j))
      ensures pool.free == if !taken && j.img.Some? && old(slot).Some? && old(slot).value.img.Some?
                           then Recycled(old(pool.free), old(slot).value.img.value) else old(pool.free)
    {
      var j := j;
      if slot.None? {
        slot := Some(j);
        return;
      }
      if !taken {
        var prev := slot.value;
        j := j.(restart := j.restart || prev.restart, keyframe := j.keyframe || prev.keyframe);
        if j.img.None? {
          j := j.(img := prev.img);
        } else if prev.img.Some? {
          pool.Recycle(prev.img.value);
        }
      }
      slot := if dropped then None else Some(j);
    }
  }

  // The one-image-at-a-time receives of takeImage in the machine end the same way,
  // if nothing else happens to the pool.
  lemma {:induction false} ReceivesTakeAnImage(x: State, j: Job, w: int, h: int) returns (n: nat)
    requires x.capture == Taking(j, w, h)
    ensures var (img, rest) := TakenFrom(x.free, x.next, w, h);
            var y := Run(Step, x, seq(n, _ => TakeImage));
            y.capture == Trying(j.(img := Some(img))) && y.free == rest
    decreases |x.free|
  {
    if x.free == [] || Fits(x.free[0], w, h) {
      n := 1;
      assert seq(1, _ => TakeImage)[1..] == [];
      assert Run(Step, x, seq(n, _ => TakeImage)) == Run(Step, Step(x, TakeImage), seq(n, _ => TakeImage)[1..]);
    } else {
      var m := ReceivesTakeAnImage(Step(x, TakeImage), j, w, h);
      n := m + 1;
      assert seq(n, _ => TakeImage)[1..] == seq(m, _ => TakeImage);
    }
  }
}
