/** The encoder goroutine's loop: what libvpx is given and what leaves as frames
    (host-agent/internal/capture/pipeline.go). Times are in nanoseconds. */
module EncodeLoop {
  import opened Prelude
  import Pipeline

  type Job = Pipeline.Job
  type Image = Pipeline.Image

  const INTERVAL: int := 33_333_333  // time.Second / 30
  const MAX_ELAPSED: int := 5_000_000_000
  const MAX_TICKS_PER_FRAME: int := 4

  // What libvpx and the frames' reader do in one turn: whether an encoder opens if
  // one is needed, what encoding gives, and whether the frame is taken.
  datatype Packet = Failed | Empty | Data
  datatype Turn = Turn(j: Job, opens: bool, packet: Packet, taken: bool)

  // One call of Encode, on the encoder `no` of size w x h; `sent` is whether a frame
  // came of it.
  datatype Call = Call(no: nat, w: int, h: int, img: Image, pts: int, duration: int, keyframe: bool,
                       at: int, sent: bool)

  datatype Frame = Frame(at: int, elapsed: int)

  datatype Encoder = Encoder(w: int, h: int, pts: int, lastEnc: Option<int>)

  datatype Loop = Loop(cur: Option<Image>, enc: Option<Encoder>, encoders: nat, lastSent: Option<int>, over: bool)

  const START: Loop := Loop(None, None, 0, None, false)

  // frameDuration.
  function FrameDuration(repeated: bool, gap: int, interval: int): int
  {
    if repeated then interval else Min(Max(gap, interval), MAX_TICKS_PER_FRAME * interval)
  }

  function Elapsed(lastSent: Option<int>, at: int): int
  {
    if lastSent.None? then 0 else Min(at - lastSent.value, MAX_ELAPSED)
  }

  // Whether a picture needs an encoder other than the one open.
  predicate NeedsNew(s: Loop, j: Job, cur: Image)
  {
    s.enc.None? || j.restart || s.enc.value.w != cur.w || s.enc.value.h != cur.h
  }

  function Encoded(s: Loop, t: Turn, cur: Image, enc: Encoder): (Loop, Option<Call>, Option<Frame>)
  {
    var j := t.j;
    var duration := FrameDuration(j.img.None?, if enc.lastEnc.None? then 0 else j.at - enc.lastEnc.value, INTERVAL);
    var sent := t.packet.Data? && t.taken;
    var call := Call(s.encoders, enc.w, enc.h, cur, enc.pts, duration, j.keyframe, j.at, sent);
    var s1 := s.(enc := Some(Encoder(enc.w, enc.h, enc.pts + duration, Some(j.at))));
    if t.packet.Failed? then (s1.(over := true), Some(call), None)
    else if t.packet.Empty? then (s1, Some(call), None)
    else if !t.taken then (s1.(lastSent := Some(j.at), over := true), Some(call), None)
    else (s1.(lastSent := Some(j.at)), Some(call), Some(Frame(j.at, Elapsed(s.lastSent, j.at))))
  }

  function After(s0: Loop, t: Turn): (Loop, Option<Call>, Option<Frame>)
  {
    if s0.over then (s0, None, None)
    else
      var s := if t.j.img.Some? then s0.(cur := t.j.img) else s0;
      if s.cur.None? then (s, None, None)
      else
        var cur := s.cur.value;
        if !NeedsNew(s, t.j, cur) then Encoded(s, t, cur, s.enc.value)
        else if !t.opens then (s.(enc := None, over := true), None, None)
        else Encoded(s.(encoders := s.encoders + 1), t, cur, Encoder(cur.w, cur.h, 0, None))
  }

  function LoopAfter(turns: seq<Turn>): Loop
  {
    if turns == [] then START else After(LoopAfter(turns[..|turns| - 1]), turns[|turns| - 1]).0
  }

  function More<T>(s: seq<T>, x: Option<T>): seq<T> { if x.Some? then s + [x.value] else s }

  function Calls(turns: seq<Turn>): seq<Call>
  {
    if turns == [] then []
    else More(Calls(turns[..|turns| - 1]), After(LoopAfter(turns[..|turns| - 1]), turns[|turns| - 1]).1)
  }

  function Frames(turns: seq<Turn>): seq<Frame>
  {
    if turns == [] then []
    else More(Frames(turns[..|turns| - 1]), After(LoopAfter(turns[..|turns| - 1]), turns[|turns| - 1]).2)
  }

  // One Encode, with a picture and an encoder for it, and what follows it.
  method EncodeOne(s: Loop, t: Turn) returns (r: Loop, call: Call, frame: Option<Frame>)
    requires s.cur.Some? && s.enc.Some?
    ensures (r, Some(call), frame) == Encoded(s, t, s.cur.value, s.enc.value)
  {
    var j, enc := t.j, s.enc.value;
    var gap := 0;
    if enc.lastEnc.Some? {
      gap := j.at - enc.lastEnc.value;
    }
    var duration := FrameDuration(j.img.None?, gap, INTERVAL);
    call := Call(s.encoders, enc.w, enc.h, s.cur.value, enc.pts, duration, j.keyframe, j.at, t.packet.Data? && t.taken);
    r := s.(enc := Some(enc.(pts := enc.pts + duration, lastEnc := Some(j.at))));
    frame := None;
    if t.packet.Failed? {
      r := r.(over := true);
      return;
    }
    if t.packet.Empty? {
      return;
    }
    var elapsed := 0;
    if r.lastSent.Some? {
      elapsed := Min(j.at - r.lastSent.value, MAX_ELAPSED);
    }
    r := r.(lastSent := Some(j.at));
    if !t.taken {
      r := r.(over := true);
      return;
    }
    frame := Some(Frame(j.at, elapsed));
  }

  // One turn of the loop.
  method HandleJob(s0: Loop, t: Turn) returns (s: Loop, call: Option<Call>, frame: Option<Frame>)
    ensures (s, call, frame) == After(s0, t)
  {
    s, call, frame := s0, None, None;
    if s.over {
      return;
    }
    if t.j.img.Some? {
      s := s.(cur := t.j.img);
    }
    if s.cur.None? {
      return;
    }
    var cur := s.cur.value;
    if s.enc.Some? && (t.j.restart || s.enc.value.w != cur.w || s.enc.value.h != cur.h) {
      s := s.(enc := None);
    }
    if s.enc.None? {
      if !t.opens {
        s := s.(over := true);
        return;
      }
      s := s.(enc := Some(Encoder(cur.w, cur.h, 0, None)), encoders := s.encoders + 1);
    }
    var made;
    s, made, frame := EncodeOne(s, t);
    call := Some(made);
  }

  // The loop, over the jobs in the order they are received.
  method Encode(turns: seq<Turn>) returns (frames: seq<Frame>, calls: seq<Call>)
    ensures frames == Frames(turns) && calls == Calls(turns)
  {
    frames, calls := [], [];
    var s := START;
    for i := 0 to |turns|
      invariant frames == Frames(turns[..i]) && calls == Calls(turns[..i]) && s == LoopAfter(turns[..i])
    {
      assert turns[..i + 1][..i] == turns[..i];
      var call, frame;
      s, call, frame := HandleJob(s, turns[i]);
      calls := More(calls, call);
      frames := More(frames, frame);
    }
    assert turns[..|turns|] == turns;
  }

  // --- The encoder's clock ---

  ghost predicate Clocked(s: Loop, calls: seq<Call>)
  {
    && (forall i :: 0 <= i < |calls| ==>
          && calls[i].no <= s.encoders && calls[i].w == calls[i].img.w && calls[i].h == calls[i].img.h
          && INTERVAL <= calls[i].duration <= MAX_TICKS_PER_FRAME * INTERVAL)
    && (forall i :: 0 < i < |calls| ==>
          (calls[i].no == calls[i - 1].no && calls[i].pts == calls[i - 1].pts + calls[i - 1].duration)
          || (calls[i].no == calls[i - 1].no + 1 && calls[i].pts == 0))
    && (calls != [] ==> calls[0].pts == 0)
    && (s.enc.Some? ==>
          && calls != [] && calls[|calls| - 1].no == s.encoders
          && s.enc.value.pts == calls[|calls| - 1].pts + calls[|calls| - 1].duration)
    && (calls == [] ==> s.encoders == 0)
    && (calls != [] && !s.over ==> calls[|calls| - 1].no == s.encoders)
  }

  lemma DurationIsSane(repeated: bool, gap: int)
    ensures INTERVAL <= FrameDuration(repeated, gap, INTERVAL) <= MAX_TICKS_PER_FRAME * INTERVAL
  {
  }

  // A call is on the encoder that is open or on a new one, and moves its clock.
  ghost predicate CallFits(s: Loop, r: Loop, call: Call)
  {
    && !s.over && r.encoders == call.no && r.enc.Some? && r.enc.value.pts == call.pts + call.duration
    && call.w == call.img.w && call.h == call.img.h
    && INTERVAL <= call.duration <= MAX_TICKS_PER_FRAME * INTERVAL
    && (if s.enc.Some? && call.no == s.encoders then call.pts == s.enc.value.pts
        else call.no == s.encoders + 1 && call.pts == 0)
  }

  lemma StepCalls(s: Loop, t: Turn)
    ensures var (r, c, _) := After(s, t);
            if c.Some? then CallFits(s, r, c.value)
            else r.encoders == s.encoders && (r.enc == s.enc || (r.enc.None? && r.over)) && (s.over ==> r.over)
  {
    if !s.over {
      var j := t.j;
      var lastEnc := if s.enc.None? then None else s.enc.value.lastEnc;
      DurationIsSane(j.img.None?, 0);
      DurationIsSane(j.img.None?, if lastEnc.None? then 0 else j.at - lastEnc.value);
    }
  }

  lemma OneCallClocked(s: Loop, calls: seq<Call>, r: Loop, call: Call)
    requires Clocked(s, calls) && CallFits(s, r, call)
    ensures Clocked(r, calls + [call])
  {
  }

  lemma NoCallClocked(s: Loop, calls: seq<Call>, r: Loop)
    requires Clocked(s, calls) && r.encoders == s.encoders && (r.enc == s.enc || (r.enc.None? && r.over))
      && (s.over ==> r.over)
    ensures Clocked(r, calls)
  {
  }

  // Each encoder's clock starts at zero and runs on by the durations it was given,
  // one to four ticks each; and an encoder is only given images of its own size.
  lemma {:induction false} CallsAreClocked(turns: seq<Turn>)
    ensures Clocked(LoopAfter(turns), Calls(turns))
  {
    if turns == [] {
    } else {
      CallsAreClocked(turns[..|turns| - 1]);
      var s, t := LoopAfter(turns[..|turns| - 1]), turns[|turns| - 1];
      StepCalls(s, t);
      var (r, c, _) := After(s, t);
      if c.Some? {
        OneCallClocked(s, Calls(turns[..|turns| - 1]), r, c.value);
      } else {
        NoCallClocked(s, Calls(turns[..|turns| - 1]), r);
      }
    }
  }

  function Durations(calls: seq<Call>): seq<int> { seq(|calls|, i requires 0 <= i < |calls| => calls[i].duration) }

  // Between two calls on one encoder, the clock moves by the durations of the first
  // and of those between: in the encoder's microseconds too, it strictly rises.
  lemma PtsIsConserved(turns: seq<Turn>, i: nat, k: nat)
    requires i <= k < |Calls(turns)| && Calls(turns)[i].no == Calls(turns)[k].no
    ensures var c := Calls(turns);
            && c[k].pts == c[i].pts + Sum(Durations(c[i..k]))
            && c[i].pts + (k - i) * INTERVAL <= c[k].pts <= c[i].pts + (k - i) * (MAX_TICKS_PER_FRAME * INTERVAL)
            && (i < k ==> c[i].pts / 1000 < c[k].pts / 1000)
  {
    CallsAreClocked(turns);
    PtsAddsUp(LoopAfter(turns), Calls(turns), i, k);
    if i < k {
      MulMonotone(1, k - i, INTERVAL);
    }
  }

  lemma {:induction false} PtsAddsUp(s: Loop, c: seq<Call>, i: nat, k: nat)
    requires Clocked(s, c) && i <= k < |c| && c[i].no == c[k].no
    ensures c[k].pts == c[i].pts + Sum(Durations(c[i..k]))
    ensures c[i].pts + (k - i) * INTERVAL <= c[k].pts <= c[i].pts + (k - i) * (MAX_TICKS_PER_FRAME * INTERVAL)
    decreases k
  {
    if i == k {
    } else {
      NumbersRise(c, s, i, k - 1);
      NumbersRise(c, s, k - 1, k);
      PtsAddsUp(s, c, i, k - 1);
      assert c[i..k][..k - 1 - i] == c[i..k - 1];
      assert Durations(c[i..k])[..k - 1 - i] == Durations(c[i..k - 1]);
    }
  }

  lemma {:induction false} NumbersRise(c: seq<Call>, s: Loop, i: nat, k: nat)
    requires Clocked(s, c) && i <= k < |c|
    ensures c[i].no <= c[k].no
    decreases k
  {
    if i == k {
    } else {
      NumbersRise(c, s, i, k - 1);
    }
  }

  // --- The frames' clock ---

  ghost predicate InOrder(turns: seq<Turn>)
  {
    forall i, k :: 0 <= i <= k < |turns| ==> turns[i].j.at <= turns[k].j.at
  }

  function Elapseds(frames: seq<Frame>): seq<int> { seq(|frames|, i requires 0 <= i < |frames| => frames[i].elapsed) }

  predicate Prompt(frames: seq<Frame>)
  {
    forall i :: 0 < i < |frames| ==> frames[i].at - frames[i - 1].at <= MAX_ELAPSED
  }

  ghost predicate Timed(s: Loop, frames: seq<Frame>, now: int)
  {
    && (!s.over ==> s.lastSent == if frames == [] then None else Some(frames[|frames| - 1].at))
    && (frames != [] ==> frames[|frames| - 1].at <= now)
    && (frames != [] ==> frames[0].elapsed == 0)
    && (forall i :: 0 < i < |frames| ==>
          frames[i - 1].at <= frames[i].at && frames[i].elapsed == Min(frames[i].at - frames[i - 1].at, MAX_ELAPSED))
  }

  lemma StepFrames(s: Loop, t: Turn)
    ensures var (r, _, f) := After(s, t);
            && (s.over ==> r.over && f.None?)
            && (f.Some? ==>
                  f.value.at == t.j.at && r.lastSent == Some(t.j.at) && f.value.elapsed == Elapsed(s.lastSent, t.j.at))
            && (f.None? && !r.over ==> r.lastSent == s.lastSent)
  {
  }

  lemma StepTimed(s: Loop, frames: seq<Frame>, t: Turn)
    requires Timed(s, frames, t.j.at)
    ensures Timed(After(s, t).0, More(frames, After(s, t).2), t.j.at)
  {
    StepFrames(s, t);
    var (r, _, f) := After(s, t);
    if f.Some? {
      FrameTimed(s, frames, r, f.value, t.j.at);
    }
  }

  lemma FrameTimed(s: Loop, frames: seq<Frame>, r: Loop, f: Frame, now: int)
    requires Timed(s, frames, now) && !s.over
    requires f.at == now && r.lastSent == Some(now) && f.elapsed == Elapsed(s.lastSent, now)
    ensures Timed(r, frames + [f], now)
  {
  }

  lemma {:induction false} FramesAreTimed(turns: seq<Turn>)
    requires InOrder(turns) && turns != []
    ensures Timed(LoopAfter(turns), Frames(turns), turns[|turns| - 1].j.at)
  {
    var last := |turns| - 1;
    if last > 0 {
      FramesAreTimed(turns[..last]);
      assert turns[..last][last - 1] == turns[last - 1];
    }
    StepTimed(LoopAfter(turns[..last]), Frames(turns[..last]), turns[last]);
  }

  // The gaps the frames carry add up to the time from the first to the last, just
  // when no gap is over five seconds, and never to more.
  lemma ElapsedIsConserved(turns: seq<Turn>)
    requires InOrder(turns) && Frames(turns) != []
    ensures var f := Frames(turns);
            && 0 <= Sum(Elapseds(f)) <= f[|f| - 1].at - f[0].at
            && (Sum(Elapseds(f)) == f[|f| - 1].at - f[0].at <==> Prompt(f))
  {
    FramesAreTimed(turns);
    var now := turns[|turns| - 1].j.at;
    SumOfGaps(LoopAfter(turns), Frames(turns), now);
  }

  lemma {:induction false} SumOfGaps(s: Loop, f: seq<Frame>, now: int)
    requires f != [] && Timed(s.(over := true), f, now)
    ensures 0 <= Sum(Elapseds(f)) <= f[|f| - 1].at - f[0].at
    ensures Sum(Elapseds(f)) == f[|f| - 1].at - f[0].at <==> Prompt(f)
  {
    var last := |f| - 1;
    assert Elapseds(f)[..last] == Elapseds(f[..last]);
    if last == 0 {
      assert f[..0] == [] && Elapseds(f)[..0] == [];
    } else {
      SumOfGaps(s, f[..last], now);
    }
  }

  // Every frame is of a call that gave data, in the same order.
  function SentAt(calls: seq<Call>): seq<int>
  {
    if calls == [] then []
    else
      var last := |calls| - 1;
      if calls[last].sent then SentAt(calls[..last]) + [calls[last].at] else SentAt(calls[..last])
  }

  lemma {:induction false} FramesAreTheCallsSent(turns: seq<Turn>)
    ensures Times(Frames(turns)) == SentAt(Calls(turns))
  {
    if turns == [] {
    } else {
      var last := |turns| - 1;
      FramesAreTheCallsSent(turns[..last]);
      StepSends(LoopAfter(turns[..last]), turns[last]);
      OneMoreSent(Frames(turns[..last]), Calls(turns[..last]), After(LoopAfter(turns[..last]), turns[last]));
    }
  }

  function Times(frames: seq<Frame>): seq<int> { seq(|frames|, i requires 0 <= i < |frames| => frames[i].at) }

  lemma StepSends(s: Loop, t: Turn)
    ensures var (_, c, f) := After(s, t);
            (f.Some? <==> c.Some? && c.value.sent) && (f.Some? ==> f.value.at == c.value.at)
  {
  }

  lemma OneMoreSent(frames: seq<Frame>, calls: seq<Call>, r: (Loop, Option<Call>, Option<Frame>))
    requires Times(frames) == SentAt(calls)
    requires (r.2.Some? <==> r.1.Some? && r.1.value.sent) && (r.2.Some? ==> r.2.value.at == r.1.value.at)
    ensures Times(More(frames, r.2)) == SentAt(More(calls, r.1))
  {
    if r.1.Some? {
      assert (calls + [r.1.value])[..|calls|] == calls;
    }
    if r.2.Some? {
      assert Times(frames + [r.2.value]) == Times(frames) + [r.2.value.at];
    }
  }
}
