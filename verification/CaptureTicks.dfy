/** Which ticks of the capture become jobs, and what jobs, in terms of the ticks alone
    (host-agent/internal/capture/pipeline.go). */
module CaptureTicks {
  import opened Prelude
  import opened CaptureLoop

  // The size of the last screen read.
  function LastSize(ticks: seq<Tick>): Option<(int, int)>
  {
    if ticks == [] then None
    else
      match ticks[|ticks| - 1].grab
      case Screen(w, h, _, _) => Some((w, h))
      case _ => LastSize(ticks[..|ticks| - 1])
  }

  // Since then the desktop could not be read.
  predicate Paused(ticks: seq<Tick>)
  {
    if ticks == [] then false
    else
      match ticks[|ticks| - 1].grab
      case Screen(_, _, _, _) => false
      case Unreadable => true
      case Broken(_) => Paused(ticks[..|ticks| - 1])
  }

  function LastAt(jobs: seq<Job>): Option<int> { if jobs == [] then None else Some(jobs[|jobs| - 1].at) }

  // When the last keyframe was, asked for or first of an encoder.
  function LastKeyAt(jobs: seq<Job>): Option<int>
  {
    if jobs == [] then None
    else if Key(Some(jobs[|jobs| - 1])) then Some(jobs[|jobs| - 1].at)
    else LastKeyAt(jobs[..|jobs| - 1])
  }

  // What the loop's variables are, while it runs.
  ghost predicate Tracks(s: Loop, ticks: seq<Tick>, jobs: seq<Job>)
  {
    && s.conv == LastSize(ticks) && s.paused == Paused(ticks) && s.restart == LastSize(ticks).None?
    && s.lastJob == LastAt(jobs) && s.lastForced == LastKeyAt(jobs)
  }

  function MoreJobs(jobs: seq<Job>, j: Option<Job>): seq<Job> { if j.Some? then jobs + [j.value] else jobs }

  lemma LaterTick(ticks: seq<Tick>, t: Tick)
    ensures LastSize(ticks + [t]) == if t.grab.Screen? then Some((t.grab.w, t.grab.h)) else LastSize(ticks)
    ensures Paused(ticks + [t]) == (t.grab.Unreadable? || (t.grab.Broken? && Paused(ticks)))
  {
    assert (ticks + [t])[..|ticks|] == ticks;
  }

  lemma LaterJob(jobs: seq<Job>, j: Job)
    ensures LastAt(jobs + [j]) == Some(j.at)
    ensures LastKeyAt(jobs + [j]) == if Key(Some(j)) then Some(j.at) else LastKeyAt(jobs)
  {
    assert (jobs + [j])[..|jobs|] == jobs;
  }

  lemma StepTracks(s: Loop, ticks: seq<Tick>, jobs: seq<Job>, t: Tick)
    requires Tracks(s, ticks, jobs) && !After(s, t).0.over
    ensures Tracks(After(s, t).0, ticks + [t], MoreJobs(jobs, After(s, t).1))
  {
    LaterTick(ticks, t);
    if After(s, t).1.Some? {
      LaterJob(jobs, After(s, t).1.value);
    }
  }

  lemma OverStays(s: Loop, t: Tick)
    requires s.over
    ensures After(s, t).0.over && After(s, t).1.None?
  {
  }

  lemma {:induction false} RunTracks(ticks: seq<Tick>)
    requires !LoopAfter(ticks).over
    ensures Tracks(LoopAfter(ticks), ticks, Jobs(ticks))
  {
    if ticks == [] {
    } else {
      var last := |ticks| - 1;
      var front := ticks[..last];
      if LoopAfter(front).over {
        OverStays(LoopAfter(front), ticks[last]);
      }
      RunTracks(front);
      StepTracks(LoopAfter(front), front, Jobs(front), ticks[last]);
      assert ticks == front + [ticks[last]];
    }
  }

  // A tick starts an encoder exactly if it is the first to read a screen, if the screen
  // is of another size than the last one read, or if the desktop could not be read in
  // between.
  predicate StartsAnew(ticks: seq<Tick>, k: nat)
    requires k < |ticks| && ticks[k].grab.Screen?
  {
    LastSize(ticks[..k]) != Some((ticks[k].grab.w, ticks[k].grab.h)) || Paused(ticks[..k])
  }

  // A viewer asked for a keyframe, and none was made since.
  ghost predicate Wanted(ticks: seq<Tick>, k: nat)
    requires k < |ticks|
  {
    exists i :: 0 <= i <= k && ticks[i].asked && NoKeySince(ticks, i, k)
  }

  ghost predicate NoKeySince(ticks: seq<Tick>, i: nat, k: nat)
    requires k < |ticks|
  {
    forall q :: i <= q < k ==> !Key(JobOf(ticks, q))
  }

  lemma WantedIsRemembered(ticks: seq<Tick>, k: nat)
    requires k < |ticks|
    ensures Wanted(ticks, k) <==> LoopAfter(ticks[..k]).want || ticks[k].asked
  {
    var front := ticks[..k];
    RequestIsPending(front);
    forall i | 0 <= i < k
      ensures Unanswered(front, i) <==> NoKeySince(ticks, i, k)
    {
      SameJobs(ticks, k, i);
    }
    if Wanted(ticks, k) {
      var i :| 0 <= i <= k && ticks[i].asked && NoKeySince(ticks, i, k);
      if i < k {
        assert front[i].asked && Unanswered(front, i);
      }
    }
    if LoopAfter(front).want {
      var i :| 0 <= i < k && front[i].asked && Unanswered(front, i);
      assert ticks[i].asked && NoKeySince(ticks, i, k);
    }
    if ticks[k].asked {
      assert NoKeySince(ticks, k, k);
    }
  }

  lemma SameJobs(ticks: seq<Tick>, k: nat, i: nat)
    requires i < k < |ticks|
    ensures Unanswered(ticks[..k], i) <==> NoKeySince(ticks, i, k)
  {
    forall q | i <= q < k
      ensures JobOf(ticks[..k], q) == JobOf(ticks, q)
    {
      assert ticks[..k][..q] == ticks[..q];
    }
  }

  // While the loop runs, a tick that reads a screen makes a job exactly if there is
  // something new to show, an encoder to start, a keyframe asked for that is due, or
  // none was made for a fifth of a second; and the job is this.
  lemma TickMakesItsJob(ticks: seq<Tick>, k: nat)
    requires k < |ticks| && ticks[k].grab.Screen? && !LoopAfter(ticks[..k]).over && !LoopAfter(ticks[..k + 1]).over
    ensures var t, before := ticks[k], Jobs(ticks[..k]);
            var anew := StartsAnew(ticks, k);
            var load := t.grab.changed || t.painted || anew;
            var due := !anew && Wanted(ticks, k) && Since(LastKeyAt(before), t.now, KEYFRAME_MIN_INTERVAL);
            JobOf(ticks, k) == if load || due || Since(LastAt(before), t.now, IDLE_INTERVAL) then
                                 Some(Job(t.now, load, anew, due, t.grab.w, t.grab.h))
                               else None
  {
    RunTracks(ticks[..k]);
    WantedIsRemembered(ticks, k);
    assert ticks[..k + 1][..k] == ticks[..k];
    ShownMakesIt(LoopAfter(ticks[..k]), ticks[k]);
  }

  lemma ShownMakesIt(s: Loop, t: Tick)
    requires t.grab.Screen? && !s.over && !After(s, t).0.over && (s.restart ==> s.conv.None?)
    ensures var anew := s.paused || s.conv != Some((t.grab.w, t.grab.h));
            var load := t.grab.changed || t.painted || anew;
            var due := !anew && (s.want || t.asked) && Since(s.lastForced, t.now, KEYFRAME_MIN_INTERVAL);
            After(s, t).1 == if load || due || Since(s.lastJob, t.now, IDLE_INTERVAL) then
                               Some(Job(t.now, load, anew, due, t.grab.w, t.grab.h))
                             else None
  {
  }

  // The loop ends exactly when a source that broke does not open again, or a screen of
  // another size than the last cannot be converted; a tick without a screen makes no job.
  lemma EndsOnlyForCause(ticks: seq<Tick>, k: nat)
    requires k < |ticks| && !LoopAfter(ticks[..k]).over
    ensures LoopAfter(ticks[..k + 1]).over
            <==> match ticks[k].grab
                 case Unreadable => false
                 case Broken(reopens) => !reopens
                 case Screen(w, h, _, fits) => LastSize(ticks[..k]) != Some((w, h)) && !fits
    ensures !ticks[k].grab.Screen? ==> JobOf(ticks, k).None?
  {
    RunTracks(ticks[..k]);
    assert ticks[..k + 1][..k] == ticks[..k];
  }
}
