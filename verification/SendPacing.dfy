/** Pacing what is sent against the channel's queue
    (host-agent/internal/transfer/send.go), and the wake-up it waits for
    (Attach in host-agent/internal/transfer/session.go). */
module SendPacing {
  import opened Prelude
  import opened Messages
  import opened Runs

  const HIGH_WATER: int := 0x10_0000
  const LOW_WATER: int := 0x4_0000

  // Where one streamFile is: about to look at the queue, clear to send one chunk,
  // waiting for a token, or gone (finished, cancelled or given up).
  datatype Pc = Looking | Clear | Waiting | Gone

  // The queue holds file data and other frames. `token` is the one-place channel
  // the senders wait on; `calls` counts callbacks of the channel not yet run.
  datatype Queue = Queue(data: nat, other: nat, token: bool, calls: nat, senders: seq<Pc>)

  datatype Action =
    | Look(i: nat)              // BufferedAmount, against the high-water mark
    | Push(i: nat, n: nat)      // Send of n bytes
    | Wake(i: nat)              // the token is taken
    | Leave(i: nat)
    | Other(n: nat)             // some other frame
    | Drain(data: nat, other: nat)
    | Call                      // a callback runs: one token, if there is room for it

  function Amount(q: Queue): nat { q.data + q.other }

  function At(q: Queue, i: nat): Pc { if i < |q.senders| then q.senders[i] else Gone }

  function Step(q: Queue, a: Action): Queue
  {
    match a
    case Look(i) =>
      if !At(q, i).Looking? then q
      else q.(senders := q.senders[i := if Amount(q) < HIGH_WATER then Clear else Waiting])
    case Push(i, n) =>
      if !At(q, i).Clear? || n > CHUNK_BYTES then q else q.(data := q.data + n, senders := q.senders[i := Looking])
    case Wake(i) =>
      if !At(q, i).Waiting? || !q.token then q else q.(token := false, senders := q.senders[i := Looking])
    case Leave(i) => if i < |q.senders| then q.(senders := q.senders[i := Gone]) else q
    case Other(n) => q.(other := q.other + n)
    case Drain(d, o) =>
      if d > q.data || o > q.other then q
      else
        var r := q.(data := q.data - d, other := q.other - o);
        if Amount(q) > LOW_WATER && Amount(r) <= LOW_WATER then r.(calls := r.calls + 1) else r
    case Call => if q.calls == 0 then q else q.(calls := q.calls - 1, token := true)
  }

  // Some senders, and perhaps a token left over from before.
  function Start(senders: nat, token: bool): Queue { Queue(0, 0, token, 0, seq(senders, _ => Looking)) }

  // --- The wake-up ---

  ghost predicate Watched(q: Queue)
  {
    && |q.senders| == 1
    && (q.senders[0].Waiting? && !q.token && q.calls == 0 ==> Amount(q) > LOW_WATER)
  }

  lemma StepWatched(q: Queue, a: Action)
    requires Watched(q)
    ensures Watched(Step(q, a))
  {
  }

  // While the one sender waits and neither a token nor a callback is on its way, the
  // queue is above the low-water mark; and whatever drains it down to the mark
  // then calls back, so that the sender can be woken.
  lemma NoLostWakeUp(token: bool, actions: seq<Action>, d: nat, o: nat)
    ensures var q := Run(Step, Start(1, token), actions);
            |q.senders| == 1
            && (q.senders[0].Waiting? && !q.token && q.calls == 0 ==>
                  && Amount(q) > LOW_WATER
                  && (d <= q.data && o <= q.other && Amount(q) - d - o <= LOW_WATER ==>
                        Step(Step(Step(q, Drain(d, o)), Call), Wake(0)).senders[0].Looking?))
  {
    forall q, a | Watched(q)
      ensures Watched(Step(q, a))
    {
      StepWatched(q, a);
    }
    RunKeeps(Step, Start(1, token), actions, Watched, _ => true);
  }

  // --- The bound ---

  function Cleared(senders: seq<Pc>): nat
  {
    if senders == [] then 0 else Cleared(senders[..|senders| - 1]) + if senders[|senders| - 1].Clear? then 1 else 0
  }

  lemma {:induction false} ClearedAtMost(senders: seq<Pc>)
    ensures Cleared(senders) <= |senders|
  {
    if senders == [] {
    } else {
      ClearedAtMost(senders[..|senders| - 1]);
    }
  }

  lemma {:induction false} ClearedOfUpdate(senders: seq<Pc>, i: nat, pc: Pc)
    requires i < |senders|
    ensures Cleared(senders[i := pc])
         == Cleared(senders) - (if senders[i].Clear? then 1 else 0) + (if pc.Clear? then 1 else 0)
  {
    var last := |senders| - 1;
    if i == last {
      assert senders[i := pc][..last] == senders[..last];
    } else {
      assert senders[i := pc][..last] == senders[..last][i := pc];
      ClearedOfUpdate(senders[..last], i, pc);
    }
  }

  // Each sender that is clear may still add one chunk.
  ghost predicate Bounded(q: Queue, k: nat)
  {
    |q.senders| == k && q.data + CHUNK_BYTES * Cleared(q.senders) <= HIGH_WATER - 1 + CHUNK_BYTES * k
  }

  lemma StepBounded(q: Queue, a: Action, k: nat)
    requires Bounded(q, k)
    ensures Bounded(Step(q, a), k)
  {
    if (a.Look? || a.Push? || a.Wake? || a.Leave?) && a.i < k {
      ClearedOfUpdate(q.senders, a.i, Step(q, a).senders[a.i]);
      assert Step(q, a).senders == q.senders || Step(q, a).senders == q.senders[a.i := Step(q, a).senders[a.i]];
    }
    ClearedAtMost(Step(q, a).senders);
  }

  lemma {:induction false} NoneCleared(senders: seq<Pc>)
    requires forall i :: 0 <= i < |senders| ==> !senders[i].Clear?
    ensures Cleared(senders) == 0
  {
    if senders == [] {
    } else {
      NoneCleared(senders[..|senders| - 1]);
    }
  }

  // File data in the queue never exceeds the high-water mark by more than one
  // chunk less a byte for each sender: for one, 1 MiB - 1 + 32 KiB.
  lemma QueueStaysBounded(k: nat, token: bool, actions: seq<Action>)
    ensures Run(Step, Start(k, token), actions).data <= HIGH_WATER - 1 + CHUNK_BYTES * k
  {
    var inv := (q: Queue) => Bounded(q, k);
    forall q, a | inv(q)
      ensures inv(Step(q, a))
    {
      StepBounded(q, a, k);
    }
    NoneCleared(Start(k, token).senders);
    RunKeeps(Step, Start(k, token), actions, inv, _ => true);
  }

  // --- Why there must be only one sender ---

  // The first of two senders fills the queue, chunk after chunk.
  function Filling(n: nat): seq<Action>
  {
    if n == 0 then [] else Filling(n - 1) + [Look(0), Push(0, CHUNK_BYTES)]
  }

  lemma {:induction false} FillsUp(n: nat)
    requires n <= 32
    ensures Run(Step, Start(2, false), Filling(n)) == Queue(n * CHUNK_BYTES, 0, false, 0, [Looking, Looking])
  {
    if n == 0 {
    } else {
      FillsUp(n - 1);
      var q := Queue((n - 1) * CHUNK_BYTES, 0, false, 0, [Looking, Looking]);
      RunOfTwoParts(Step, Start(2, false), Filling(n - 1), [Look(0), Push(0, CHUNK_BYTES)]);
      RunOfTwo(Step, q, Look(0), Push(0, CHUNK_BYTES));
      OneChunkMore((n - 1) * CHUNK_BYTES);
    }
  }

  lemma OneChunkMore(data: nat)
    requires data < HIGH_WATER
    ensures var q := Queue(data, 0, false, 0, [Looking, Looking]);
            Step(Step(q, Look(0)), Push(0, CHUNK_BYTES)) == q.(data := data + CHUNK_BYTES)
  {
    var q := Queue(data, 0, false, 0, [Looking, Looking]);
    var r := Step(q, Look(0));
    assert r == q.(senders := [Clear, Looking]);
    assert Step(r, Push(0, CHUNK_BYTES)) == r.(data := data + CHUNK_BYTES, senders := [Looking, Looking]);
  }

  // What follows a full queue of n bytes: both wait, the queue drains, and the one
  // token goes to the first, which is done.
  function Stalling(n: nat): seq<Action>
  {
    [Look(0), Look(1)] + ([Drain(n, 0), Call] + [Wake(0), Leave(0)])
  }

  // The second then waits beside an empty queue, and nothing is coming.
  lemma TwoSendersCanStall(n: nat)
    requires n * CHUNK_BYTES == HIGH_WATER
    ensures Run(Step, Start(2, false), Filling(n) + Stalling(n * CHUNK_BYTES)) == Queue(0, 0, false, 0, [Gone, Waiting])
  {
    FillsUp(n);
    var full, both := BothWait(n * CHUNK_BYTES);
    var called := OneToken(n * CHUNK_BYTES, both);
    LastOneLeft(called);
    RunOfTwoParts(Step, Start(2, false), Filling(n), Stalling(n * CHUNK_BYTES));
    RunOfSix(full, both, called, Look(0), Look(1), Drain(n * CHUNK_BYTES, 0), Call, Wake(0), Leave(0));
  }

  lemma BothWait(n: nat) returns (full: Queue, both: Queue)
    requires n == HIGH_WATER
    ensures full == Queue(n, 0, false, 0, [Looking, Looking])
    ensures both == Step(Step(full, Look(0)), Look(1)) == Queue(n, 0, false, 0, [Waiting, Waiting])
  {
    full := Queue(n, 0, false, 0, [Looking, Looking]);
    both := Step(Step(full, Look(0)), Look(1));
  }

  lemma OneToken(n: nat, both: Queue) returns (called: Queue)
    requires n == HIGH_WATER && both == Queue(n, 0, false, 0, [Waiting, Waiting])
    ensures called == Step(Step(both, Drain(n, 0)), Call) == Queue(0, 0, true, 0, [Waiting, Waiting])
  {
    called := Step(Step(both, Drain(n, 0)), Call);
  }

  lemma LastOneLeft(called: Queue)
    requires called == Queue(0, 0, true, 0, [Waiting, Waiting])
    ensures Step(Step(called, Wake(0)), Leave(0)) == Queue(0, 0, false, 0, [Gone, Waiting])
  {
  }

  lemma RunOfSix(q: Queue, r: Queue, s: Queue, a: Action, b: Action, c: Action, d: Action, e: Action, f: Action)
    requires r == Step(Step(q, a), b) && s == Step(Step(r, c), d)
    ensures Run(Step, q, [a, b] + ([c, d] + [e, f])) == Step(Step(s, e), f)
  {
    RunOfTwoParts(Step, q, [a, b], [c, d] + [e, f]);
    RunOfTwo(Step, q, a, b);
    RunOfTwoParts(Step, r, [c, d], [e, f]);
    RunOfTwo(Step, r, c, d);
    RunOfTwo(Step, s, e, f);
  }

  // --- One file ---

  // How often the i-th wait and the i-th send work out, and how much the i-th read
  // returns: at least a byte, at most what is asked for and what there is.
  datatype Env = Env(drained: nat -> bool, accepted: nat -> bool, gives: nat -> nat)

  datatype Outcome = Complete | Changed | Interrupted

  function ReadLength(env: Env, i: nat, left: nat): (n: nat)
    requires left > 0
    ensures 1 <= n <= left && n <= CHUNK_BYTES
  {
    Max(1, Min(env.gives(i), Min(CHUNK_BYTES, left)))
  }

  ghost predicate FullReads(env: Env) { forall i: nat :: env.gives(i) >= CHUNK_BYTES }

  // streamFile, for a file that reads as `file` and was offered as `size` bytes. It
  // completes only after exactly the first `size` bytes; a file that did not change
  // always completes if nothing interrupts it, one that shrank never does, and
  // one that grew does just when the reads, if full, end at `size`.
  method StreamFile(file: seq<byte>, size: nat, env: Env) returns (outcome: Outcome, chunks: seq<seq<byte>>)
    ensures forall i :: 0 <= i < |chunks| ==> 1 <= |chunks[i]| <= CHUNK_BYTES
    ensures Concat(chunks) <= file
    ensures outcome == Complete ==> |file| >= size && Concat(chunks) == file[..size]
    ensures outcome == Changed ==> |Concat(chunks)| != size && |file| != size
    ensures forall i :: 0 <= i < |chunks| ==> env.drained(i) && env.accepted(i)
    ensures outcome == Interrupted
            <==> var n, sent := |chunks|, |Concat(chunks)|;
                 sent < size && (!env.drained(n) || (sent < |file| && !env.accepted(n)))
    ensures FullReads(env) && |file| > size && outcome != Interrupted ==>
              (outcome == Complete <==> size % CHUNK_BYTES == 0)
  {
    chunks := [];
    var sent, i := 0, 0;
    while sent < size
      invariant 0 <= sent <= |file| && Concat(chunks) == file[..sent]
      invariant i == |chunks| && forall j :: 0 <= j < i ==> env.drained(j) && env.accepted(j)
      invariant forall j :: 0 <= j < |chunks| ==> 1 <= |chunks[j]| <= CHUNK_BYTES
      invariant FullReads(env) ==> sent == Min(i * CHUNK_BYTES, |file|) && (i > 0 ==> (i - 1) * CHUNK_BYTES < size)
      decreases |file| - sent
    {
      if !env.drained(i) {
        return Interrupted, chunks;
      }
      if sent == |file| {
        break;
      }
      var n := ReadLength(env, i, |file| - sent);
      if !env.accepted(i) {
        return Interrupted, chunks;
      }
      var chunk := file[sent..sent + n];
      assert (chunks + [chunk])[..|chunks|] == chunks;
      chunks := chunks + [chunk];
      sent := sent + n;
      i := i + 1;
    }
    if sent != size {
      return Changed, chunks;
    }
    return Complete, chunks;
  }
}
