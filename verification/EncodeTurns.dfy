/** What each call of the encoder encodes, in terms of the jobs alone
    (host-agent/internal/capture/pipeline.go). */
module EncodeTurns {
  import opened Prelude
  import opened EncodeLoop
  import opened Pictures
  import Pipeline

  function JobsOf(turns: seq<Turn>): (jobs: seq<Job>)
    ensures |jobs| == |turns|
  {
    seq(|turns|, k requires 0 <= k < |turns| => turns[k].j)
  }

  // The call made in turn k, if there is one.
  function CallOf(turns: seq<Turn>, k: nat): Option<Call>
    requires k < |turns|
  {
    After(LoopAfter(turns[..k]), turns[k]).1
  }

  // The picture there is in turn k: that of the last job so far that brings one.
  function PictureAt(turns: seq<Turn>, k: nat): Option<Image>
    requires k < |turns|
  {
    Newest(JobsOf(turns[..k + 1]))
  }

  // The picture of turn k needs an encoder other than the one of the calls before: there
  // is none, the job asks for one, or the size is another.
  predicate NewEncoder(turns: seq<Turn>, k: nat)
    requires k < |turns|
  {
    var before := Calls(turns[..k]);
    before == [] || turns[k].j.restart
    || match PictureAt(turns, k)
       case None => false
       case Some(img) => (img.w, img.h) != (before[|before| - 1].img.w, before[|before| - 1].img.h)
  }

  // What the loop remembers, while it runs.
  ghost predicate Remembers(s: Loop, jobs: seq<Job>, calls: seq<Call>)
  {
    && s.cur == Newest(jobs)
    && (if calls == [] then s.enc.None? && s.encoders == 0
        else
          var c := calls[|calls| - 1];
          s.enc.Some? && (s.enc.value.w, s.enc.value.h) == (c.img.w, c.img.h) && s.enc.value.lastEnc == Some(c.at)
          && s.encoders == c.no)
  }

  // What a turn does: after s, with these calls before it.
  ghost predicate Encodes(before: seq<Call>, t: Turn, img: Image, c: Call)
  {
    var anew := before == [] || t.j.restart
                 || (img.w, img.h) != (before[|before| - 1].img.w, before[|before| - 1].img.h);
    && c.img == img && c.at == t.j.at && c.keyframe == t.j.keyframe && c.sent == (t.packet.Data? && t.taken)
    && c.no == (if before == [] then 1 else if anew then before[|before| - 1].no + 1 else before[|before| - 1].no)
    && c.duration == (if anew then INTERVAL else Stands(t.j, t.j.at - before[|before| - 1].at))
  }

  // How long a picture stands for: a repeated one for one tick, a new one for as long as
  // it took to come, but no less than one tick and no more than four.
  function Stands(j: Job, gap: int): int
  {
    if j.img.None? || gap < INTERVAL then INTERVAL
    else if gap > 4 * INTERVAL then 4 * INTERVAL
    else gap
  }

  lemma NewestOfMore(jobs: seq<Job>, j: Job)
    ensures Newest(jobs + [j]) == if j.img.Some? then j.img else Newest(jobs)
  {
    assert (jobs + [j])[..|jobs|] == jobs;
  }

  lemma TurnEncodes(s: Loop, jobs: seq<Job>, calls: seq<Call>, t: Turn)
    requires !s.over && Remembers(s, jobs, calls)
    ensures var (r, c, _) := After(s, t);
            var img := Newest(jobs + [t.j]);
            && (c.Some? ==> img.Some? && Encodes(calls, t, img.value, c.value))
            && (!r.over ==> Remembers(r, jobs + [t.j], More(calls, c)))
            && (c.None? && img.Some? ==> !t.opens && r.over)
  {
    TurnCalls(s, jobs, calls, t);
    TurnRemembers(s, jobs, calls, t);
  }

  lemma TurnCalls(s: Loop, jobs: seq<Job>, calls: seq<Call>, t: Turn)
    requires !s.over && Remembers(s, jobs, calls)
    ensures var (r, c, _) := After(s, t);
            var img := Newest(jobs + [t.j]);
            && (c.Some? ==> img.Some? && Encodes(calls, t, img.value, c.value))
            && (c.None? && img.Some? ==> !t.opens && r.over)
  {
    NewestOfMore(jobs, t.j);
  }

  lemma TurnRemembers(s: Loop, jobs: seq<Job>, calls: seq<Call>, t: Turn)
    requires !s.over && Remembers(s, jobs, calls)
    ensures var (r, c, _) := After(s, t); !r.over ==> Remembers(r, jobs + [t.j], More(calls, c))
  {
    NewestOfMore(jobs, t.j);
    var (r, c, _) := After(s, t);
    if c.Some? {
      CallIsRemembered(s, calls, t);
    }
  }

  lemma CallIsRemembered(s: Loop, calls: seq<Call>, t: Turn)
    requires !s.over && After(s, t).1.Some?
    requires if calls == [] then s.enc.None? && s.encoders == 0 else s.enc.Some? && s.encoders == calls[|calls| - 1].no
    ensures var (r, c, _) := After(s, t);
            && r.enc.Some? && (r.enc.value.w, r.enc.value.h) == (c.value.img.w, c.value.img.h)
            && r.enc.value.lastEnc == Some(c.value.at) && r.encoders == c.value.no
  {
  }

  lemma OverStays(s: Loop, t: Turn)
    requires s.over
    ensures After(s, t).0.over && After(s, t).1.None?
  {
  }

  lemma {:induction false} RunRemembers(turns: seq<Turn>)
    requires !LoopAfter(turns).over
    ensures Remembers(LoopAfter(turns), JobsOf(turns), Calls(turns))
  {
    if turns == [] {
    } else {
      var last := |turns| - 1;
      var front := turns[..last];
      if LoopAfter(front).over {
        OverStays(LoopAfter(front), turns[last]);
      }
      RunRemembers(front);
      TurnEncodes(LoopAfter(front), JobsOf(front), Calls(front), turns[last]);
      assert JobsOf(turns) == JobsOf(front) + [turns[last].j];
    }
  }

  // Turn p is the last one up to k whose job brings a picture, and this is it.
  ghost predicate ShownAt(turns: seq<Turn>, k: nat, p: nat, img: Image)
    requires k < |turns|
  {
    p <= k && turns[p].j.img == Some(img) && forall q :: p < q <= k ==> turns[q].j.img.None?
  }

  // The call of a turn encodes the picture of the last job so far that brings one, and
  // has the time and the keyframe request of its own job. It is on a new encoder exactly
  // if there was none, the job asks for one, or the size is another; and it stands for
  // as long as its picture took to come.
  lemma CallIsOfItsTurn(turns: seq<Turn>, k: nat)
    requires k < |turns| && CallOf(turns, k).Some?
    ensures var c, before := CallOf(turns, k).value, Calls(turns[..k]);
            && (exists p :: ShownAt(turns, k, p, c.img))
            && c.at == turns[k].j.at && c.keyframe == turns[k].j.keyframe
            && c.sent == (turns[k].packet.Data? && turns[k].taken)
            && c.no == (if before == [] then 1
                        else before[|before| - 1].no + if NewEncoder(turns, k) then 1 else 0)
            && c.duration == (if NewEncoder(turns, k) then INTERVAL
                              else Stands(turns[k].j, turns[k].j.at - before[|before| - 1].at))
  {
    var front := turns[..k];
    assert !LoopAfter(front).over;
    RunRemembers(front);
    TurnEncodes(LoopAfter(front), JobsOf(front), Calls(front), turns[k]);
    assert JobsOf(turns[..k + 1]) == JobsOf(front) + [turns[k].j];
    NewestIsShown(turns, k, CallOf(turns, k).value.img);
  }

  lemma NewestIsShown(turns: seq<Turn>, k: nat, img: Image)
    requires k < |turns| && PictureAt(turns, k) == Some(img)
    ensures exists p :: ShownAt(turns, k, p, img)
  {
    var jobs := JobsOf(turns[..k + 1]);
    NewestIsLast(jobs, img);
    var p: nat :| LastShows(jobs, p, img);
    forall q | p < q <= k
      ensures turns[q].j.img.None?
    {
      assert jobs[q] == turns[q].j;
    }
    assert jobs[p] == turns[p].j && ShownAt(turns, k, p, img);
  }

  // While the loop runs, every turn that has a picture makes a call, but for one whose
  // new encoder does not open, which ends it.
  lemma EveryPictureIsEncoded(turns: seq<Turn>, k: nat)
    requires k < |turns| && !LoopAfter(turns[..k]).over
    ensures CallOf(turns, k).Some?
            <==> PictureAt(turns, k).Some? && (NewEncoder(turns, k) ==> turns[k].opens)
  {
    var front := turns[..k];
    RunRemembers(front);
    assert JobsOf(turns[..k + 1]) == JobsOf(front) + [turns[k].j];
    NewestOfMore(JobsOf(front), turns[k].j);
  }

  // The loop goes on until an encoder does not open or fails, or a frame is not taken.
  lemma EndsOnlyForCause(turns: seq<Turn>, k: nat)
    requires k < |turns| && !LoopAfter(turns[..k]).over
    ensures LoopAfter(turns[..k + 1]).over
            <==> if CallOf(turns, k).Some? then turns[k].packet.Failed? || (turns[k].packet.Data? && !turns[k].taken)
                 else PictureAt(turns, k).Some?
  {
    assert turns[..k + 1][..k] == turns[..k];
    EveryPictureIsEncoded(turns, k);
    RunRemembers(turns[..k]);
    assert JobsOf(turns[..k + 1]) == JobsOf(turns[..k]) + [turns[k].j];
    NewestOfMore(JobsOf(turns[..k]), turns[k].j);
  }

  // Every call is that of one turn, which comes after those of the calls before it.
  lemma {:induction false} EachCallHasItsTurn(turns: seq<Turn>, i: nat) returns (k: nat)
    requires i < |Calls(turns)|
    ensures k < |turns| && |Calls(turns[..k])| == i && CallOf(turns, k) == Some(Calls(turns)[i])
  {
    var last := |turns| - 1;
    var front := turns[..last];
    if i < |Calls(front)| {
      k := EachCallHasItsTurn(front, i);
      assert front[..k] == turns[..k];
    } else {
      k := last;
    }
  }
}
