/** One session's signaling stream taken apart, replays absorbed
    (host-agent/internal/signaling/rtdb_transport.go). An event arrives as a path, cut
    at its slashes, and data already decoded, once for each form it may be
    wanted in. */
module Signaling {
  import opened Prelude
  import opened Runs

  datatype Role = Host | Viewer

  datatype Description = Description(t: string, sdp: string)
  datatype Candidate = Candidate(text: string)
  datatype Snapshot = Snapshot(viewer: string, owner: string, status: string)

  type Candidates = seq<(string, Candidate)>  // a map, in the order it is walked

  datatype Node = Node(viewer: string, owner: string, status: string, offer: Option<Description>,
                       answer: Option<Description>, hostCands: Candidates, viewerCands: Candidates)

  // None where the data does not decode to that form. `missing` is "null" or nothing.
  datatype Data = Data(missing: bool, node: Option<Node>, text: Option<string>, desc: Option<Description>,
                       cands: Option<Candidates>, cand: Option<Candidate>)

  type Path = seq<string>

  // A put, or a patch at the root with the children it lists.
  datatype Event = Put(path: Path, data: Data) | PatchRoot(missing: bool, children: Option<seq<(Path, Data)>>)

  function LocalDescKey(r: Role): string { if r.Host? then "offer" else "answer" }
  function RemoteDescKey(r: Role): string { if r.Host? then "answer" else "offer" }
  function LocalCandKey(r: Role): string { if r.Host? then "hostCandidates" else "viewerCandidates" }
  function RemoteCandKey(r: Role): string { if r.Host? then "viewerCandidates" else "hostCandidates" }

  // --- What an event says ---

  datatype Fact =
    | Seen(s: Snapshot) | Status(status: string) | Desc(d: Description) | Cand(key: string, c: Candidate) | Gone

  function CandFacts(cands: Candidates): seq<Fact>
  {
    seq(|cands|, i requires 0 <= i < |cands| => Cand(cands[i].0, cands[i].1))
  }

  function Identity(n: Node): seq<Fact>
  {
    (if n.viewer != "" || n.owner != "" then [Seen(Snapshot(n.viewer, n.owner, n.status))] else [])
    + (if n.status != "" then [Status(n.status)] else [])
  }

  function NodeFacts(r: Role, n: Node): seq<Fact>
  {
    Identity(n)
    + (match if r.Host? then n.answer else n.offer
       case None => []
       case Some(d) => [Desc(d)])
    + CandFacts(if r.Host? then n.viewerCands else n.hostCands)
  }

  // route.
  function Facts(r: Role, path: Path, data: Data): seq<Fact>
  {
    if path == [] then (if data.node.Some? then NodeFacts(r, data.node.value) else [])
    else if path == ["status"] then (if data.text.Some? && data.text.value != "" then [Status(data.text.value)] else [])
    else if path == [RemoteDescKey(r)] then (if data.desc.Some? then [Desc(data.desc.value)] else [])
    else if path == [RemoteCandKey(r)] then (if data.cands.Some? then CandFacts(data.cands.value) else [])
    else if |path| == 2 && path[0] == RemoteCandKey(r) then
      (if data.cand.Some? then [Cand(path[1], data.cand.value)] else [])
    else []
  }

  function ChildFacts(r: Role, children: seq<(Path, Data)>): seq<Fact>
  {
    if children == [] then []
    else ChildFacts(r, children[..|children| - 1]) + Facts(r, children[|children| - 1].0, children[|children| - 1].1)
  }

  // demux.
  function EventFacts(r: Role, ev: Event): seq<Fact>
  {
    match ev
    case Put(path, data) => if data.missing then (if path == [] then [Gone] else []) else Facts(r, path, data)
    case PatchRoot(missing, children) =>
      if missing then [Gone] else if children.Some? then ChildFacts(r, children.value) else []
  }

  // --- What is passed on ---

  // The candidates are those passed on, with their keys; `statuses` is every status
  // passed to the buffer.
  datatype Outputs = Outputs(keys: set<string>, snapshot: Option<Snapshot>, desc: Option<Description>,
                             cands: Candidates, statuses: seq<string>, gone: bool)

  const NOTHING: Outputs := Outputs({}, None, None, [], [], false)

  predicate Valid(f: Fact)
  {
    match f
    case Desc(d) => d.t != "" && d.sdp != ""
    case Cand(_, c) => c.text != ""
    case _ => true
  }

  function Emit(o: Outputs, f: Fact): Outputs
  {
    if !Valid(f) then o
    else
      match f
      case Seen(s) => if o.snapshot.None? then o.(snapshot := Some(s)) else o
      case Status(s) => o.(statuses := o.statuses + [s])
      case Desc(d) => if o.desc.None? then o.(desc := Some(d)) else o
      case Cand(k, c) => if k in o.keys then o else o.(keys := o.keys + {k}, cands := o.cands + [(k, c)])
      case Gone => o.(gone := true)
  }

  function EmitAll(o: Outputs, facts: seq<Fact>): Outputs { Run(Emit, o, facts) }

  function Said(r: Role, events: seq<Event>): seq<Fact>
  {
    if events == [] then [] else EventFacts(r, events[0]) + Said(r, events[1..])
  }

  function After(r: Role, events: seq<Event>): Outputs { EmitAll(NOTHING, Said(r, events)) }

  // --- Exactly once ---

  // The first fact of the kind, in order.
  ghost predicate FirstDesc(facts: seq<Fact>, i: nat)
  {
    && i < |facts| && facts[i].Desc? && Valid(facts[i])
    && forall j :: 0 <= j < i ==> !(facts[j].Desc? && Valid(facts[j]))
  }

  ghost predicate FirstSeen(facts: seq<Fact>, i: nat)
  {
    i < |facts| && facts[i].Seen? && forall j :: 0 <= j < i ==> !facts[j].Seen?
  }

  ghost predicate FirstCand(facts: seq<Fact>, i: nat)
  {
    && i < |facts| && facts[i].Cand? && Valid(facts[i])
    && forall j :: 0 <= j < i && facts[j].Cand? && Valid(facts[j]) ==> facts[j].key != facts[i].key
  }

  // The candidates to be passed on: the first valid one of each key, in order.
  ghost function Firsts(facts: seq<Fact>): Candidates
  {
    if facts == [] then []
    else
      var last := |facts| - 1;
      Firsts(facts[..last]) + if FirstCand(facts, last) then [(facts[last].key, facts[last].c)] else []
  }

  ghost function Statuses(facts: seq<Fact>): seq<string>
  {
    if facts == [] then []
    else
      var last := |facts| - 1;
      Statuses(facts[..last]) + if facts[last].Status? then [facts[last].status] else []
  }

  ghost predicate SaysCand(facts: seq<Fact>, key: string)
  {
    exists i :: 0 <= i < |facts| && facts[i].Cand? && Valid(facts[i]) && facts[i].key == key
  }

  lemma {:induction false} RunOfLonger(o: Outputs, facts: seq<Fact>)
    requires facts != []
    ensures EmitAll(o, facts) == Emit(EmitAll(o, facts[..|facts| - 1]), facts[|facts| - 1])
  {
    var last := |facts| - 1;
    assert facts == facts[..last] + [facts[last]];
    RunOfTwoParts(Emit, o, facts[..last], [facts[last]]);
    assert [facts[last]][1..] == [];
    assert Run(Emit, EmitAll(o, facts[..last]), [facts[last]])
        == Run(Emit, Emit(EmitAll(o, facts[..last]), facts[last]), []);
  }

  lemma SaysLonger(facts: seq<Fact>, key: string)
    requires facts != []
    ensures var last := |facts| - 1;
            SaysCand(facts, key) <==>
              SaysCand(facts[..last], key) || (facts[last].Cand? && Valid(facts[last]) && facts[last].key == key)
  {
    var last := |facts| - 1;
    if SaysCand(facts[..last], key) {
      var i :| 0 <= i < last && facts[..last][i].Cand? && Valid(facts[..last][i]) && facts[..last][i].key == key;
      assert facts[i].key == key;
    }
    if SaysCand(facts, key) {
      var i :| 0 <= i < |facts| && facts[i].Cand? && Valid(facts[i]) && facts[i].key == key;
      assert i < last ==> facts[..last][i].key == key;
    }
  }

  // The candidates passed on are the first valid one of each key, in order, and the
  // keys remembered are theirs.
  lemma {:induction false} CandidatesAreFirsts(facts: seq<Fact>)
    ensures EmitAll(NOTHING, facts).cands == Firsts(facts)
    ensures forall key :: key in EmitAll(NOTHING, facts).keys <==> SaysCand(facts, key)
  {
    if facts == [] {
    } else {
      var last := |facts| - 1;
      var front := facts[..last];
      CandidatesAreFirsts(front);
      RunOfLonger(NOTHING, facts);
      forall key
        ensures SaysCand(facts, key) <==>
                  SaysCand(front, key) || (facts[last].Cand? && Valid(facts[last]) && facts[last].key == key)
      {
        SaysLonger(facts, key);
      }
      if facts[last].Cand? && Valid(facts[last]) {
        NewKey(facts);
      }
    }
  }

  lemma NewKey(facts: seq<Fact>)
    requires facts != [] && facts[|facts| - 1].Cand? && Valid(facts[|facts| - 1])
    ensures FirstCand(facts, |facts| - 1) <==> !SaysCand(facts[..|facts| - 1], facts[|facts| - 1].key)
  {
    var last := |facts| - 1;
    if !FirstCand(facts, last) {
      var j :| 0 <= j < last && facts[j].Cand? && Valid(facts[j]) && facts[j].key == facts[last].key;
      assert facts[..last][j].key == facts[last].key;
    }
  }

  // No key is passed on twice.
  lemma {:induction false} KeysDiffer(facts: seq<Fact>)
    ensures var c := EmitAll(NOTHING, facts).cands; forall i, j :: 0 <= i < j < |c| ==> c[i].0 != c[j].0
    ensures var o := EmitAll(NOTHING, facts); forall i :: 0 <= i < |o.cands| ==> o.cands[i].0 in o.keys
  {
    if facts == [] {
    } else {
      KeysDiffer(facts[..|facts| - 1]);
      RunOfLonger(NOTHING, facts);
    }
  }

  // The description passed on is the first valid one there was.
  lemma {:induction false} DescriptionIsFirst(facts: seq<Fact>, i: nat)
    ensures FirstDesc(facts, i) ==> EmitAll(NOTHING, facts).desc == Some(facts[i].d)
    ensures (forall j :: 0 <= j < |facts| ==> !(facts[j].Desc? && Valid(facts[j]))) ==>
              EmitAll(NOTHING, facts).desc == None
  {
    if facts == [] {
    } else {
      DescriptionIsFirst(facts[..|facts| - 1], i);
      RunOfLonger(NOTHING, facts);
    }
  }

  // The snapshot passed on is the first that names a party.
  lemma {:induction false} SnapshotIsFirst(facts: seq<Fact>, i: nat)
    ensures FirstSeen(facts, i) ==> EmitAll(NOTHING, facts).snapshot == Some(facts[i].s)
    ensures (forall j :: 0 <= j < |facts| ==> !facts[j].Seen?) ==> EmitAll(NOTHING, facts).snapshot == None
  {
    if facts == [] {
    } else {
      SnapshotIsFirst(facts[..|facts| - 1], i);
      RunOfLonger(NOTHING, facts);
    }
  }

  // Every status goes to the buffer, in order; the session is gone once that was said.
  lemma {:induction false} StatusesAllPass(facts: seq<Fact>)
    ensures EmitAll(NOTHING, facts).statuses == Statuses(facts)
    ensures EmitAll(NOTHING, facts).gone <==> Gone in facts
  {
    if facts == [] {
    } else {
      StatusesAllPass(facts[..|facts| - 1]);
      RunOfLonger(NOTHING, facts);
      assert facts == facts[..|facts| - 1] + [facts[|facts| - 1]];
    }
  }

  // --- Replays ---

  // A fact that adds nothing: of a key already passed on, or of a kind already there.
  predicate Known(o: Outputs, f: Fact)
  {
    match f
    case Seen(_) => o.snapshot.Some?
    case Desc(_) => Valid(f) ==> o.desc.Some?
    case Cand(k, _) => Valid(f) ==> k in o.keys
    case _ => true
  }

  predicate SameOutputs(a: Outputs, b: Outputs)
  {
    a.keys == b.keys && a.snapshot == b.snapshot && a.desc == b.desc && a.cands == b.cands
  }

  // Facts already known add nothing to the candidates, the description and the
  // snapshot, whatever their order.
  lemma {:induction false} KnownAddNothing(o: Outputs, facts: seq<Fact>)
    requires forall i :: 0 <= i < |facts| ==> Known(o, facts[i])
    ensures SameOutputs(EmitAll(o, facts), o)
    decreases |facts|
  {
    if facts == [] {
    } else {
      KnownAddNothing(Emit(o, facts[0]), facts[1..]);
    }
  }

  lemma KnownStays(o: Outputs, f: Fact, g: Fact)
    requires Known(o, f)
    ensures Known(Emit(o, g), f)
  {
  }

  // What was said is known from then on.
  lemma {:induction false} SaidIsKnown(o: Outputs, facts: seq<Fact>, i: nat)
    requires i < |facts|
    ensures Known(EmitAll(o, facts), facts[i])
    decreases |facts|
  {
    if i > 0 {
      SaidIsKnown(Emit(o, facts[0]), facts[1..], i - 1);
    } else {
      StaysKnown(Emit(o, facts[0]), facts[1..], facts[0]);
    }
  }

  lemma {:induction false} StaysKnown(o: Outputs, facts: seq<Fact>, f: Fact)
    requires Known(o, f)
    ensures Known(EmitAll(o, facts), f)
    decreases |facts|
  {
    if facts == [] {
    } else {
      KnownStays(o, f, facts[0]);
      StaysKnown(Emit(o, facts[0]), facts[1..], f);
    }
  }

  // The events of a replay say nothing of a kind or a key that was not said before: a
  // snapshot re-sent after a reconnect, or any of the old events over again.
  ghost predicate Replays(before: seq<Fact>, replayed: seq<Fact>)
  {
    forall f :: f in replayed && Valid(f) ==>
      match f
      case Seen(_) => exists i :: 0 <= i < |before| && before[i].Seen?
      case Desc(_) => exists i :: 0 <= i < |before| && before[i].Desc? && Valid(before[i])
      case Cand(k, _) => SaysCand(before, k)
      case _ => true
  }

  lemma {:induction false} SaidOfTwoParts(r: Role, a: seq<Event>, b: seq<Event>)
    ensures Said(r, a + b) == Said(r, a) + Said(r, b)
    decreases |a|
  {
    if a == [] {
      assert a + b == b;
    } else {
      assert (a + b)[1..] == a[1..] + b;
      SaidOfTwoParts(r, a[1..], b);
    }
  }

  // A replay, in whatever events it comes, adds nothing to the three outputs.
  lemma ReplaysAreAbsorbed(r: Role, events: seq<Event>, replay: seq<Event>)
    requires Replays(Said(r, events), Said(r, replay))
    ensures SameOutputs(After(r, events + replay), After(r, events))
  {
    SaidOfTwoParts(r, events, replay);
    RunOfTwoParts(Emit, NOTHING, Said(r, events), Said(r, replay));
    forall i | 0 <= i < |Said(r, replay)|
      ensures Known(After(r, events), Said(r, replay)[i])
    {
      ReplayedIsKnown(r, events, replay, Said(r, replay)[i]);
    }
    KnownAddNothing(After(r, events), Said(r, replay));
  }

  lemma ReplayedIsKnown(r: Role, events: seq<Event>, replay: seq<Event>, f: Fact)
    requires Replays(Said(r, events), Said(r, replay)) && f in Said(r, replay)
    ensures Known(After(r, events), f)
  {
    var before := Said(r, events);
    if Valid(f) {
      match f
      case Seen(_) =>
        var i :| 0 <= i < |before| && before[i].Seen?;
        SaidIsKnown(NOTHING, before, i);
      case Desc(_) =>
        var i :| 0 <= i < |before| && before[i].Desc? && Valid(before[i]);
        SaidIsKnown(NOTHING, before, i);
      case Cand(k, _) =>
        var i :| 0 <= i < |before| && before[i].Cand? && Valid(before[i]) && before[i].key == k;
        SaidIsKnown(NOTHING, before, i);
      case _ =>
    }
  }

  // In particular, any of the events again, in any order and any number of times.
  lemma OldEventsAreReplays(r: Role, events: seq<Event>, again: seq<Event>)
    requires forall e :: e in again ==> e in events
    ensures SameOutputs(After(r, events + again), After(r, events))
  {
    forall f | f in Said(r, again)
      ensures f in Said(r, events)
    {
      var e := SaidBy(r, again, f);
      SaidIn(r, events, e, f);
    }
    SameSaidReplays(Said(r, events), Said(r, again));
    ReplaysAreAbsorbed(r, events, again);
  }

  lemma SameSaidReplays(before: seq<Fact>, replayed: seq<Fact>)
    requires forall f :: f in replayed ==> f in before
    ensures Replays(before, replayed)
  {
  }

  lemma {:induction false} SaidBy(r: Role, events: seq<Event>, f: Fact) returns (e: Event)
    requires f in Said(r, events)
    ensures e in events && f in EventFacts(r, e)
    decreases |events|
  {
    if f in EventFacts(r, events[0]) {
      e := events[0];
    } else {
      e := SaidBy(r, events[1..], f);
    }
  }

  lemma {:induction false} SaidIn(r: Role, events: seq<Event>, e: Event, f: Fact)
    requires e in events && f in EventFacts(r, e)
    ensures f in Said(r, events)
    decreases |events|
  {
    if events[0] == e {
    } else {
      SaidIn(r, events[1..], e, f);
    }
  }

  // --- The two sides ---

  // What one side publishes is what the other side reads.
  lemma RolesMirror()
    ensures RemoteDescKey(Host) == LocalDescKey(Viewer) && RemoteDescKey(Viewer) == LocalDescKey(Host)
    ensures RemoteCandKey(Host) == LocalCandKey(Viewer) && RemoteCandKey(Viewer) == LocalCandKey(Host)
    ensures forall r :: RemoteDescKey(r) != LocalDescKey(r) && RemoteCandKey(r) != LocalCandKey(r)
  {
    assert "offer" != "answer";
    assert "hostCandidates"[0] != "viewerCandidates"[0];
  }

  // A side never takes its own description or candidates for the other's.
  lemma OwnSideIsIgnored(r: Role, path: Path, data: Data)
    requires path != [] && (path[0] == LocalDescKey(r) || path[0] == LocalCandKey(r))
    ensures Facts(r, path, data) == []
  {
    assert "offer"[0] == 'o' && "answer"[0] == 'a' && "status"[0] == 's';
    assert "hostCandidates"[0] == 'h' && "viewerCandidates"[0] == 'v';
  }
}
