/** The capture goroutine's own loop: which ticks become jobs, and with what
    (host-agent/internal/capture/pipeline.go, and the constants and the keyframe
    request of host-agent/internal/capture/capture.go). Times are in nanoseconds. */
module CaptureLoop {
  import opened Prelude

  const IDLE_INTERVAL: int := 200_000_000
  const KEYFRAME_MIN_INTERVAL: int := 500_000_000

  // What one tick finds: the desktop unreadable; the source broken, and whether it
  // opens again; or a screen, whether it changed, and whether it can be converted.
  datatype Grab = Unreadable | Broken(reopens: bool) | Screen(w: int, h: int, changed: bool, fits: bool)

  // `painted` is what the pointer's painter reports, `asked` whether a viewer asked
  // for a keyframe since the tick before.
  datatype Tick = Tick(now: int, grab: Grab, painted: bool, asked: bool)

  // `load` is whether the job brings a picture, of a screen of w x h.
  datatype Job = Job(at: int, load: bool, restart: bool, keyframe: bool, w: int, h: int)

  // The loop's variables. A time not set yet is None.
  datatype Loop = Loop(conv: Option<(int, int)>, paused: bool, restart: bool, want: bool,
                       lastJob: Option<int>, lastForced: Option<int>, over: bool)

  const START: Loop := Loop(None, false, true, false, None, None, false)

  predicate Since(last: Option<int>, now: int, span: int) { last.None? || now - last.value >= span }

  // One tick on a readable screen that can be converted.
  function Shown(s: Loop, t: Tick): (Loop, Option<Job>)
    requires t.grab.Screen?
  {
    var size := (t.grab.w, t.grab.h);
    var restart := s.restart || s.paused || s.conv != Some(size);
    var load := t.grab.changed || restart || t.painted;
    var force := !restart && s.want && Since(s.lastForced, t.now, KEYFRAME_MIN_INTERVAL);
    var s1 := s.(conv := Some(size), paused := false, restart := restart,
                 want := s.want && !restart && !force,
                 lastForced := if restart || force then Some(t.now) else s.lastForced);
    if !load && !force && !Since(s.lastJob, t.now, IDLE_INTERVAL) then (s1, None)
    else (s1.(restart := false, lastJob := Some(t.now)), Some(Job(t.now, load, restart, force, size.0, size.1)))
  }

  function After(s0: Loop, t: Tick): (Loop, Option<Job>)
  {
    var s := s0.(want := s0.want || t.asked);
    if s.over then (s, None)
    else
      match t.grab
      case Unreadable => (s.(paused := true), None)
      case Broken(reopens) => (s.(over := !reopens), None)
      case Screen(w, h, _, fits) =>
        if s.conv != Some((w, h)) && !fits then (s.(over := true), None) else Shown(s, t)
  }

  // The jobs of a run, and the loop after it.
  function LoopAfter(ticks: seq<Tick>): Loop
  {
    if ticks == [] then START else After(LoopAfter(ticks[..|ticks| - 1]), ticks[|ticks| - 1]).0
  }

  function Jobs(ticks: seq<Tick>): seq<Job>
  {
    if ticks == [] then []
    else
      var last := |ticks| - 1;
      var j := After(LoopAfter(ticks[..last]), ticks[last]).1;
      if j.Some? then Jobs(ticks[..last]) + [j.value] else Jobs(ticks[..last])
  }

  // The loop.
  method Capture(ticks: seq<Tick>) returns (jobs: seq<Job>)
    ensures jobs == Jobs(ticks)
  {
    jobs := [];
    var conv: Option<(int, int)> := None;
    var paused, restart, want, over := false, true, false, false;
    var lastJob: Option<int>, lastForced: Option<int> := None, None;
    for i := 0 to |ticks|
      invariant jobs == Jobs(ticks[..i])
      invariant Loop(conv, paused, restart, want, lastJob, lastForced, over) == LoopAfter(ticks[..i])
    {
      assert ticks[..i + 1][..i] == ticks[..i];
      var t := ticks[i];
      want := want || t.asked;
      if over {
        continue;
      }
      if t.grab.Unreadable? {
        paused := true;
        continue;
      }
      if t.grab.Broken? {
        over := !t.grab.reopens;
        continue;
      }
      if conv != Some((t.grab.w, t.grab.h)) && !t.grab.fits {
        over := true;
        continue;
      }
      if paused {
        paused := false;
        restart := true;
      }
      if conv != Some((t.grab.w, t.grab.h)) {
        conv := Some((t.grab.w, t.grab.h));
        restart := true;
      }
      var load := t.grab.changed || restart;
      if t.painted {
        load := true;
      }
      var force := false;
      if restart {
        lastForced := Some(t.now);
        want := false;
      } else if Since(lastForced, t.now, KEYFRAME_MIN_INTERVAL) {
        force := want;
        want := false;
        if force {
          lastForced := Some(t.now);
        }
      }
      if !load && !force && !Since(lastJob, t.now, IDLE_INTERVAL) {
        continue;
      }
      lastJob := Some(t.now);
      jobs := jobs + [Job(t.now, load, restart, force, t.grab.w, t.grab.h)];
      restart := false;
    }
    assert ticks[..|ticks|] == ticks;
  }

  // --- What the jobs are like ---

  function JobOf(ticks: seq<Tick>, k: nat): Option<Job>
    requires k < |ticks|
  {
    After(LoopAfter(ticks[..k]), ticks[k]).1
  }

  // A job that is a keyframe, by request or because its encoder is new.
  predicate Key(j: Option<Job>) { j.Some? && (j.value.restart || j.value.keyframe) }

  ghost predicate Shaped(s: Loop, jobs: seq<Job>)
  {
    && (forall i :: 0 <= i < |jobs| ==> jobs[i].restart ==> jobs[i].load && !jobs[i].keyframe)
    && (jobs == [] ==> s.restart)
    && (jobs != [] ==> jobs[0].restart)
    && (!s.restart ==> jobs != [] && s.conv == Some((jobs[|jobs| - 1].w, jobs[|jobs| - 1].h)))
    && (forall i :: 0 < i < |jobs| && !jobs[i].restart ==> jobs[i].w == jobs[i - 1].w && jobs[i].h == jobs[i - 1].h)
  }

  // The first job starts an encoder, a job that starts one brings a picture, and a
  // job that does not is of a screen of the same size as the job before.
  lemma {:induction false} JobsAreShaped(ticks: seq<Tick>)
    ensures Shaped(LoopAfter(ticks), Jobs(ticks))
  {
    if ticks == [] {
    } else {
      JobsAreShaped(ticks[..|ticks| - 1]);
      StepShaped(LoopAfter(ticks[..|ticks| - 1]), Jobs(ticks[..|ticks| - 1]), ticks[|ticks| - 1]);
    }
  }

  lemma StepShaped(s: Loop, jobs: seq<Job>, t: Tick)
    requires Shaped(s, jobs)
    ensures var r := After(s, t); Shaped(r.0, if r.1.Some? then jobs + [r.1.value] else jobs)
  {
  }

  ghost predicate InOrder(ticks: seq<Tick>)
  {
    forall i, j :: 0 <= i <= j < |ticks| ==> ticks[i].now <= ticks[j].now
  }

  ghost predicate Spaced(s: Loop, jobs: seq<Job>, now: int)
  {
    && (forall i :: 0 <= i < |jobs| && Key(Some(jobs[i])) ==>
          s.lastForced.Some? && jobs[i].at <= s.lastForced.value <= now)
    && (s.lastForced.Some? ==> s.lastForced.value <= now)
    && (forall i, k :: 0 <= i < k < |jobs| && Key(Some(jobs[i])) && jobs[k].keyframe ==>
          jobs[k].at - jobs[i].at >= KEYFRAME_MIN_INTERVAL)
  }

  // However often a viewer asks, a keyframe is forced only half a second or more
  // after the keyframe before it.
  lemma {:induction false} KeyframesAreSpaced(ticks: seq<Tick>)
    requires InOrder(ticks)
    ensures forall i, k :: 0 <= i < k < |Jobs(ticks)| && Key(Some(Jobs(ticks)[i])) && Jobs(ticks)[k].keyframe ==>
              Jobs(ticks)[k].at - Jobs(ticks)[i].at >= KEYFRAME_MIN_INTERVAL
    ensures ticks != [] ==> Spaced(LoopAfter(ticks), Jobs(ticks), ticks[|ticks| - 1].now)
  {
    if ticks == [] {
    } else {
      var last := |ticks| - 1;
      KeyframesAreSpaced(ticks[..last]);
      var s, jobs := LoopAfter(ticks[..last]), Jobs(ticks[..last]);
      assert last > 0 ==> ticks[..last][last - 1] == ticks[last - 1];
      StepSpaced(s, jobs, ticks[last]);
    }
  }

  lemma StepSpaced(s: Loop, jobs: seq<Job>, t: Tick)
    requires Spaced(s, jobs, t.now)
    ensures var r := After(s, t); Spaced(r.0, if r.1.Some? then jobs + [r.1.value] else jobs, t.now)
  {
  }

  // A request is pending exactly until a keyframe comes that was made after it was
  // seen: none is lost, and none is answered twice.
  lemma {:induction false} RequestIsPending(ticks: seq<Tick>)
    ensures LoopAfter(ticks).want
            <==> exists i :: 0 <= i < |ticks| && ticks[i].asked && Unanswered(ticks, i)
  {
    if ticks == [] {
    } else {
      var last := |ticks| - 1;
      var front := ticks[..last];
      RequestIsPending(front);
      assert ticks[..last] == front;
      forall i | 0 <= i < last
        ensures Unanswered(ticks, i) <==> Unanswered(front, i) && !Key(JobOf(ticks, last))
      {
        UnansweredLonger(ticks, i);
      }
      StepAnswers(LoopAfter(front), ticks[last]);
      assert Unanswered(ticks, last) <==> !Key(JobOf(ticks, last));
    }
  }

  ghost predicate Unanswered(ticks: seq<Tick>, i: nat)
  {
    forall k :: i <= k < |ticks| ==> !Key(JobOf(ticks, k))
  }

  lemma UnansweredLonger(ticks: seq<Tick>, i: nat)
    requires i < |ticks| - 1
    ensures Unanswered(ticks, i) <==> Unanswered(ticks[..|ticks| - 1], i) && !Key(JobOf(ticks, |ticks| - 1))
  {
    var front := ticks[..|ticks| - 1];
    forall k | i <= k < |front|
      ensures JobOf(front, k) == JobOf(ticks, k)
    {
      assert front[..k] == ticks[..k];
    }
  }

  lemma StepAnswers(s: Loop, t: Tick)
    ensures After(s, t).0.want <==> (s.want || t.asked) && !Key(After(s, t).1)
  {
  }

  // What is new on a readable screen always makes a job with a picture; a request
  // made half a second after the last keyframe makes one at once; and a screen on
  // which nothing happens still makes a job every fifth of a second.
  lemma NothingIsMissed(ticks: seq<Tick>, k: nat)
    requires k < |ticks| && ticks[k].grab.Screen? && !LoopAfter(ticks[..k + 1]).over
    ensures ticks[k].grab.changed || ticks[k].painted ==> JobOf(ticks, k).Some? && JobOf(ticks, k).value.load
    ensures LoopAfter(ticks[..k]).want || ticks[k].asked ==>
              Since(LoopAfter(ticks[..k]).lastForced, ticks[k].now, KEYFRAME_MIN_INTERVAL) ==> Key(JobOf(ticks, k))
    ensures Since(LoopAfter(ticks[..k]).lastJob, ticks[k].now, IDLE_INTERVAL) ==> JobOf(ticks, k).Some?
  {
    assert ticks[..k + 1][..k] == ticks[..k];
  }
}
