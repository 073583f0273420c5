/** Which picture is encoded, and which jobs are sent, in every run of the capture and
    the encoder goroutines (host-agent/internal/capture/pipeline.go). */
module Pictures {
  import opened Prelude
  import opened Runs
  import opened Pipeline

  // The picture of the last job that has one.
  function Newest(jobs: seq<Job>): Option<Image>
  {
    if jobs == [] then None
    else if jobs[|jobs| - 1].img.Some? then jobs[|jobs| - 1].img
    else Newest(jobs[..|jobs| - 1])
  }

  // Job p has this picture, and no job after it has any.
  ghost predicate LastShows(jobs: seq<Job>, p: nat, img: Image)
  {
    p < |jobs| && jobs[p].img == Some(img) && forall q :: p < q < |jobs| ==> jobs[q].img.None?
  }

  lemma {:induction false} NewestIsLast(jobs: seq<Job>, img: Image)
    ensures Newest(jobs) == Some(img) <==> exists p :: LastShows(jobs, p, img)
    ensures Newest(jobs) == None <==> forall p :: 0 <= p < |jobs| ==> jobs[p].img.None?
  {
    if jobs == [] {
    } else {
      var last := |jobs| - 1;
      NewestIsLast(jobs[..last], img);
      if jobs[last].img == Some(img) {
        assert LastShows(jobs, last, img);
      } else if jobs[last].img.None? {
        if p: nat :| LastShows(jobs[..last], p, img) {
          assert LastShows(jobs, p, img);
        }
        if p: nat :| LastShows(jobs, p, img) {
          assert LastShows(jobs[..last], p, img);
        }
      }
    }
  }

  lemma {:induction false} NewestOfTwoParts(a: seq<Job>, b: seq<Job>)
    ensures Newest(a + b) == if Newest(b).Some? then Newest(b) else Newest(a)
  {
    if b == [] {
      assert a + b == a;
    } else {
      assert (a + b)[..|a + b| - 1] == a + b[..|b| - 1];
      NewestOfTwoParts(a, b[..|b| - 1]);
    }
  }

  // --- What is encoded ---

  // The encoder's picture is the newest of the jobs it received.
  ghost predicate ShowsNewest(e: Encode, got: seq<Job>)
  {
    match e
    case Waiting(cur) => cur == Newest(got)
    case Handling(j, cur) => got != [] && j == got[|got| - 1] && cur == Newest(got[..|got| - 1])
    case Encoding(img) => Newest(got) == Some(img)
    case Blank => Newest(got) == None
  }

  lemma StepShowsNewest(x: State, a: Action)
    requires ShowsNewest(x.encode, x.h.got)
    ensures ShowsNewest(Step(x, a).encode, Step(x, a).h.got)
  {
    if a == Receive && x.encode.Waiting? && x.slot.Some? {
      assert (x.h.got + [x.slot.value])[..|x.h.got|] == x.h.got;
    } else if a.Receive? || a.Adopt? || a.Encoded? {
    } else {
      CaptureLeavesIt(x, a);
    }
  }

  lemma CaptureLeavesIt(x: State, a: Action)
    requires !a.Receive? && !a.Adopt? && !a.Encoded?
    ensures Step(x, a).encode == x.encode && Step(x, a).h.got == x.h.got
  {
  }

  // What is being encoded is the picture of the last job received that has one, and with
  // none the encoder has no picture.
  lemma EncodesTheNewest(actions: seq<Action>)
    ensures var x := Reached(actions);
            && (x.encode.Encoding? ==> exists p :: LastShows(x.h.got, p, x.encode.img))
            && (x.encode == Blank ==> forall p :: 0 <= p < |x.h.got| ==> x.h.got[p].img.None?)
  {
    RunShowsNewest(actions);
    var x := Reached(actions);
    if x.encode.Encoding? {
      NewestIsLast(x.h.got, x.encode.img);
    } else if x.encode == Blank {
      NewestIsLast(x.h.got, Image(0, 0, 0));
    }
  }

  lemma RunShowsNewest(actions: seq<Action>)
    ensures ShowsNewest(Reached(actions).encode, Reached(actions).h.got)
  {
    var inv := (x: State) => ShowsNewest(x.encode, x.h.got);
    forall x, a | inv(x)
      ensures inv(Step(x, a))
    {
      StepShowsNewest(x, a);
    }
    RunKeeps(Step, Start(), actions, inv, _ => true);
  }

  lemma {:induction false} MergeHasNewest(jobs: seq<Job>)
    requires jobs != []
    ensures MergeAll(jobs).img == Newest(jobs)
  {
    if |jobs| == 1 {
      assert jobs[..0] == [];
    } else {
      MergeHasNewest(jobs[..|jobs| - 1]);
    }
  }

  lemma {:induction false} GroupsHaveNewest(got: seq<Job>, groups: seq<seq<Job>>)
    requires |got| == |groups|
    requires forall i :: 0 <= i < |got| ==> groups[i] != [] && got[i] == MergeAll(groups[i])
    ensures Newest(got) == Newest(Concat(groups))
  {
    if got == [] {
    } else {
      var last := |got| - 1;
      GroupsHaveNewest(got[..last], groups[..last]);
      MergeHasNewest(groups[last]);
      NewestOfTwoParts(Concat(groups[..last]), groups[last]);
    }
  }

  // The jobs sent that are no longer in the mailbox.
  function Delivered(h: History): seq<Job>
    requires |h.queue| <= |h.sent|
  {
    h.sent[..|h.sent| - |h.queue|]
  }

  // Merging loses no picture but for a newer one: until a job is dropped, what is being
  // encoded is the picture of the last job sent that has one, of those no longer in the
  // mailbox.
  lemma EncodesTheNewestSent(actions: seq<Action>)
    requires !Reached(actions).h.lost && Reached(actions).encode.Encoding?
    ensures var x := Reached(actions);
            |x.h.queue| <= |x.h.sent| && exists p :: LastShows(Delivered(x.h), p, x.encode.img)
  {
    var x := Reached(actions);
    RunSound(actions);
    RunShowsNewest(actions);
    assert Conserved(x);
    GroupsHaveNewest(x.h.got, x.h.groups);
    var received := Concat(x.h.groups);
    assert Delivered(x.h) == received;
    NewestIsLast(received, x.encode.img);
  }

  // --- What is sent ---

  // The ticks that made a job.
  function Ticks(actions: seq<Action>): seq<Action>
  {
    if actions == [] then []
    else
      var front, a := actions[..|actions| - 1], actions[|actions| - 1];
      if a.Tick? && Reached(front).capture.Idle? then Ticks(front) + [a] else Ticks(front)
  }

  // The job of a tick: its time and its flags; a picture of its size, if it brings one or
  // an encoder starts.
  predicate IsJobOf(j: Job, a: Action)
  {
    && a.Tick? && j.at == a.at && j.keyframe == a.keyframe && (j.img.Some? <==> a.load || j.restart)
    && (j.img.Some? ==> j.img.value.w == a.w && j.img.value.h == a.h)
  }

  // The job in hand, as the tick made it.
  function InHand(c: Capture): Option<Job>
  {
    match c
    case Idle(_) => None
    case Taking(j, _, _) => Some(j)
    case Trying(j) => Some(j)
    case Finding(j) => Some(j)
    case Recycling(_, _, asked) => Some(asked)
    case Putting(_, asked) => Some(asked)
  }

  ghost predicate HasTicks(x: State, ticks: seq<Action>)
  {
    && |ticks| == |x.h.sent| + (if x.capture.Idle? then 0 else 1)
    && (forall i :: 0 <= i < |x.h.sent| ==> IsJobOf(x.h.sent[i], ticks[i]))
    && (!x.capture.Idle? ==> HandFits(x.capture, ticks[|ticks| - 1]))
  }

  predicate HandFits(c: Capture, a: Action)
  {
    match c
    case Idle(_) => true
    case Taking(j, w, h) =>
      && a.Tick? && j.at == a.at && j.keyframe == a.keyframe && j.img.None? && (a.load || j.restart)
      && w == a.w && h == a.h
    case _ => IsJobOf(InHand(c).value, a)
  }

  lemma StepHasTicks(x: State, ticks: seq<Action>, a: Action)
    requires HasTicks(x, ticks) && !Step(x, a).h.lost
    ensures HasTicks(Step(x, a), if a.Tick? && x.capture.Idle? then ticks + [a] else ticks)
  {
    if a.Receive? || a.Adopt? || a.Encoded? || a == Cancel {
      assert Step(x, a).capture == x.capture && Step(x, a).h.sent == x.h.sent;
    } else {
      CaptureHasTicks(x, ticks, a);
    }
  }

  lemma CaptureHasTicks(x: State, ticks: seq<Action>, a: Action)
    requires HasTicks(x, ticks) && !CaptureStep(x, a).h.lost
    ensures HasTicks(CaptureStep(x, a), if a.Tick? && x.capture.Idle? then ticks + [a] else ticks)
  {
    var y := CaptureStep(x, a);
    if y.h.sent != x.h.sent {
      assert y.h.sent == x.h.sent + [InHand(x.capture).value];
    }
  }

  lemma LostStays(x: State, a: Action)
    requires x.h.lost
    ensures Step(x, a).h.lost
  {
  }

  // Until a job is dropped, the jobs sent are those the ticks made, in order, and at most
  // one more is on its way: with its tick's time, flags and picture.
  lemma {:induction false} SentAreTheTicks(actions: seq<Action>)
    requires !Reached(actions).h.lost
    ensures HasTicks(Reached(actions), Ticks(actions))
  {
    if actions == [] {
    } else {
      var front, a := actions[..|actions| - 1], actions[|actions| - 1];
      assert actions == front + [a];
      RunOfTwoParts(Step, Start(), front, [a]);
      RunOfOne(Step, Reached(front), a);
      if Reached(front).h.lost {
        LostStays(Reached(front), a);
      }
      SentAreTheTicks(front);
      StepHasTicks(Reached(front), Ticks(front), a);
    }
  }
}
