/** What the events of a session's stream carry, whatever their form, and what of it is
    passed on (host-agent/internal/signaling/rtdb_transport.go). */
module Carried {
  import opened Prelude
  import opened Runs
  import opened Signaling

  // What an event brings: the data at a path, or at each of the paths a patch lists.
  function Pieces(ev: Event): seq<(Path, Data)>
  {
    match ev
    case Put(path, data) => if data.missing then [] else [(path, data)]
    case PatchRoot(missing, children) => if missing || children.None? then [] else children.value
  }

  // The session's node is said to be gone.
  predicate RootMissing(ev: Event)
  {
    match ev
    case Put(path, data) => path == [] && data.missing
    case PatchRoot(missing, _) => missing
  }

  // --- What a piece holds, in each of its forms ---

  // The host is told the viewer's answer, the viewer the host's offer: within the whole
  // node, or by itself.
  predicate HasDesc(r: Role, p: (Path, Data), d: Description)
  {
    match r
    case Host =>
      (p.0 == [] && p.1.node.Some? && p.1.node.value.answer == Some(d)) || (p.0 == ["answer"] && p.1.desc == Some(d))
    case Viewer =>
      (p.0 == [] && p.1.node.Some? && p.1.node.value.offer == Some(d)) || (p.0 == ["offer"] && p.1.desc == Some(d))
  }

  // Each is told the other's candidates: within the node, all of them, or one by itself.
  predicate HasCand(r: Role, p: (Path, Data), key: string, c: Candidate)
  {
    match r
    case Host =>
      (p.0 == [] && p.1.node.Some? && (key, c) in p.1.node.value.viewerCands)
      || (p.0 == ["viewerCandidates"] && p.1.cands.Some? && (key, c) in p.1.cands.value)
      || (p.0 == ["viewerCandidates", key] && p.1.cand == Some(c))
    case Viewer =>
      (p.0 == [] && p.1.node.Some? && (key, c) in p.1.node.value.hostCands)
      || (p.0 == ["hostCandidates"] && p.1.cands.Some? && (key, c) in p.1.cands.value)
      || (p.0 == ["hostCandidates", key] && p.1.cand == Some(c))
  }

  predicate HasSnapshot(p: (Path, Data), s: Snapshot)
  {
    && p.0 == [] && p.1.node.Some? && (s.viewer != "" || s.owner != "")
    && s == Snapshot(p.1.node.value.viewer, p.1.node.value.owner, p.1.node.value.status)
  }

  predicate HasStatus(p: (Path, Data), s: string)
  {
    && s != ""
    && ((p.0 == [] && p.1.node.Some? && p.1.node.value.status == s) || (p.0 == ["status"] && p.1.text == Some(s)))
  }

  // That is what a piece says, and no more.
  lemma PieceSays(r: Role, p: (Path, Data), f: Fact)
    ensures f in Facts(r, p.0, p.1)
            <==> match f
                 case Seen(s) => HasSnapshot(p, s)
                 case Status(s) => HasStatus(p, s)
                 case Desc(d) => HasDesc(r, p, d)
                 case Cand(key, c) => HasCand(r, p, key, c)
                 case Gone => false
  {
    KeysAreApart(r);
    if p.0 == [] && p.1.node.Some? {
      NodeSays(r, p.1.node.value, f);
    } else if p.0 == [RemoteCandKey(r)] && p.1.cands.Some? {
      CandsSay(p.1.cands.value, f);
    } else if |p.0| == 2 && p.0[0] == RemoteCandKey(r) {
      assert p.0 == [RemoteCandKey(r), p.0[1]];
    }
  }

  lemma KeysAreApart(r: Role)
    ensures "status" != "answer" && "answer" != "offer" && "offer" != "status"
    ensures "hostCandidates" !in {"status", "answer", "offer"} && "viewerCandidates" !in {"status", "answer", "offer"}
    ensures "hostCandidates" != "viewerCandidates"
  {
    assert "offer"[0] == 'o' && "answer"[0] == 'a' && "status"[0] == 's';
    assert "hostCandidates"[0] == 'h' && "viewerCandidates"[0] == 'v';
  }

  lemma CandsSay(cands: Candidates, f: Fact)
    ensures f in CandFacts(cands) <==> f.Cand? && (f.key, f.c) in cands
  {
    if f.Cand? && (f.key, f.c) in cands {
      var i :| 0 <= i < |cands| && cands[i] == (f.key, f.c);
      assert CandFacts(cands)[i] == f;
    }
  }

  lemma NodeSays(r: Role, n: Node, f: Fact)
    ensures f in NodeFacts(r, n)
            <==> match f
                 case Seen(s) => (s.viewer != "" || s.owner != "") && s == Snapshot(n.viewer, n.owner, n.status)
                 case Status(s) => s != "" && n.status == s
                 case Desc(d) => (if r.Host? then n.answer else n.offer) == Some(d)
                 case Cand(key, c) => (key, c) in if r.Host? then n.viewerCands else n.hostCands
                 case Gone => false
  {
    CandsSay(if r.Host? then n.viewerCands else n.hostCands, f);
  }

  // --- What events say ---

  // Which pieces state a fact.
  ghost predicate AreSaying(r: Role, f: Fact, saying: ((Path, Data)) -> bool)
  {
    forall p {:trigger saying(p)} :: saying(p) <==> f in Facts(r, p.0, p.1)
  }

  lemma {:induction false} ChildSays(r: Role, children: seq<(Path, Data)>, f: Fact, saying: ((Path, Data)) -> bool)
    requires AreSaying(r, f, saying)
    ensures f in ChildFacts(r, children) <==> exists p :: p in children && saying(p)
  {
    if children == [] {
    } else {
      var last := |children| - 1;
      ChildSays(r, children[..last], f, saying);
      OneMorePiece(children, saying);
      assert saying(children[last]) <==> f in Facts(r, children[last].0, children[last].1);
    }
  }

  lemma OneMorePiece(children: seq<(Path, Data)>, saying: ((Path, Data)) -> bool)
    requires children != []
    ensures (exists p :: p in children && saying(p))
            <==> (exists p :: p in children[..|children| - 1] && saying(p)) || saying(children[|children| - 1])
  {
    assert children == children[..|children| - 1] + [children[|children| - 1]];
  }

  // A fact an event states is its root missing, or held by one of its pieces.
  lemma EventSays(r: Role, ev: Event, f: Fact)
    ensures f in EventFacts(r, ev)
            <==> (f == Gone && RootMissing(ev)) || exists p :: p in Pieces(ev) && f in Facts(r, p.0, p.1)
  {
    match ev
    case Put(path, data) =>
      if !data.missing {
        assert (path, data) in Pieces(ev);
      }
    case PatchRoot(missing, children) =>
      if !missing && children.Some? {
        var saying := (p: (Path, Data)) => f in Facts(r, p.0, p.1);
        ChildSays(r, children.value, f, saying);
      }
  }

  lemma {:induction false} StreamSays(r: Role, events: seq<Event>, f: Fact)
    ensures f in Said(r, events) <==> exists ev :: ev in events && f in EventFacts(r, ev)
  {
    if events == [] {
    } else {
      StreamSays(r, events[1..], f);
      assert events == [events[0]] + events[1..];
    }
  }

  lemma OneMoreEvent(r: Role, events: seq<Event>, ev: Event)
    ensures After(r, events + [ev]) == EmitAll(After(r, events), EventFacts(r, ev))
  {
    SaidOfTwoParts(r, events, [ev]);
    assert [ev][1..] == [] && Said(r, [ev]) == EventFacts(r, ev) + [];
    RunOfTwoParts(Emit, NOTHING, Said(r, events), EventFacts(r, ev));
    assert Said(r, events + [ev]) == Said(r, events) + EventFacts(r, ev);
  }

  // --- The description ---

  predicate IsWhole(d: Description) { d.t != "" && d.sdp != "" }

  ghost predicate CarriesDesc(r: Role, ev: Event, d: Description)
  {
    IsWhole(d) && exists p :: p in Pieces(ev) && HasDesc(r, p, d)
  }

  lemma DescSaid(r: Role, ev: Event, d: Description)
    ensures CarriesDesc(r, ev, d) <==> IsWhole(d) && Desc(d) in EventFacts(r, ev)
  {
    EventSays(r, ev, Desc(d));
    forall p | p in Pieces(ev)
      ensures Desc(d) in Facts(r, p.0, p.1) <==> HasDesc(r, p, d)
    {
      PieceSays(r, p, Desc(d));
    }
  }

  lemma {:induction false} DescAfter(o: Outputs, facts: seq<Fact>, d: Description)
    requires IsWhole(d) && forall e :: Desc(e) in facts && IsWhole(e) ==> e == d
    ensures EmitAll(o, facts).desc == if o.desc.Some? then o.desc else if Desc(d) in facts then Some(d) else None
    decreases |facts|
  {
    if facts == [] {
    } else {
      assert facts == [facts[0]] + facts[1..];
      DescAfter(Emit(o, facts[0]), facts[1..], d);
    }
  }

  // With none before, the description an event carries is passed on, in whatever form it
  // comes.
  lemma FirstDescriptionPasses(r: Role, events: seq<Event>, ev: Event, d: Description)
    requires After(r, events).desc == None && CarriesDesc(r, ev, d)
    requires forall e :: CarriesDesc(r, ev, e) ==> e == d
    ensures After(r, events + [ev]).desc == Some(d)
  {
    OneMoreEvent(r, events, ev);
    DescSaid(r, ev, d);
    forall e | Desc(e) in EventFacts(r, ev) && IsWhole(e)
      ensures e == d
    {
      DescSaid(r, ev, e);
    }
    DescAfter(After(r, events), EventFacts(r, ev), d);
  }

  // None is passed on that no event carried, and one is as soon as one was carried.
  lemma DescriptionWasCarried(r: Role, events: seq<Event>)
    ensures After(r, events).desc.Some? <==> exists ev, d :: ev in events && CarriesDesc(r, ev, d)
    ensures After(r, events).desc.Some? ==>
              exists ev :: ev in events && CarriesDesc(r, ev, After(r, events).desc.value)
  {
    var facts := Said(r, events);
    if i: nat :| i < |facts| && facts[i].Desc? && Valid(facts[i]) {
      var k := FirstOfAll(facts, i);
      DescriptionIsFirst(facts, k);
      var d := facts[k].d;
      assert Desc(d) in facts;
      StreamSays(r, events, Desc(d));
      var ev :| ev in events && Desc(d) in EventFacts(r, ev);
      DescSaid(r, ev, d);
    } else {
      DescriptionIsFirst(facts, 0);
      forall ev, d | ev in events
        ensures !CarriesDesc(r, ev, d)
      {
        DescSaid(r, ev, d);
        StreamSays(r, events, Desc(d));
      }
    }
  }

  lemma {:induction false} FirstOfAll(facts: seq<Fact>, i: nat) returns (k: nat)
    requires i < |facts| && facts[i].Desc? && Valid(facts[i])
    ensures FirstDesc(facts, k)
  {
    if j: nat :| j < i && facts[j].Desc? && Valid(facts[j]) {
      k := FirstOfAll(facts, j);
    } else {
      k := i;
    }
  }

  // --- The candidates ---

  ghost predicate CarriesCand(r: Role, ev: Event, key: string, c: Candidate)
  {
    c.text != "" && exists p :: p in Pieces(ev) && HasCand(r, p, key, c)
  }

  lemma CandSaid(r: Role, ev: Event, key: string, c: Candidate)
    ensures CarriesCand(r, ev, key, c) <==> c.text != "" && Cand(key, c) in EventFacts(r, ev)
  {
    EventSays(r, ev, Cand(key, c));
    forall p | p in Pieces(ev)
      ensures Cand(key, c) in Facts(r, p.0, p.1) <==> HasCand(r, p, key, c)
    {
      PieceSays(r, p, Cand(key, c));
    }
  }

  lemma {:induction false} CandAfter(o: Outputs, facts: seq<Fact>, key: string, c: Candidate)
    requires c.text != "" && forall e: Candidate :: Cand(key, e) in facts && e.text != "" ==> e == c
    requires key in o.keys ==> (key, c) in o.cands
    ensures key in o.keys || Cand(key, c) in facts ==> (key, c) in EmitAll(o, facts).cands
    decreases |facts|
  {
    if facts == [] {
    } else {
      assert facts == [facts[0]] + facts[1..];
      CandAfter(Emit(o, facts[0]), facts[1..], key, c);
    }
  }

  // With none of its key before, the candidate an event carries is passed on, in
  // whatever form it comes.
  lemma FirstCandidatePasses(r: Role, events: seq<Event>, ev: Event, key: string, c: Candidate)
    requires CarriesCand(r, ev, key, c) && (forall e, d :: e in events ==> !CarriesCand(r, e, key, d))
    requires forall e :: CarriesCand(r, ev, key, e) ==> e == c
    ensures (key, c) in After(r, events + [ev]).cands
  {
    OneMoreEvent(r, events, ev);
    CandSaid(r, ev, key, c);
    forall e: Candidate | Cand(key, e) in EventFacts(r, ev) && e.text != ""
      ensures e == c
    {
      CandSaid(r, ev, key, e);
    }
    CandidatesWereCarried(r, events, key);
    CandAfter(After(r, events), EventFacts(r, ev), key, c);
  }

  // A key is passed on exactly if some event carried a candidate with it, and then with
  // such a one.
  lemma CandidatesWereCarried(r: Role, events: seq<Event>, key: string)
    ensures key in After(r, events).keys <==> exists ev, c :: ev in events && CarriesCand(r, ev, key, c)
    ensures forall c :: (key, c) in After(r, events).cands ==> exists ev :: ev in events && CarriesCand(r, ev, key, c)
  {
    var facts := Said(r, events);
    CandidatesAreFirsts(facts);
    if key in After(r, events).keys {
      var i :| 0 <= i < |facts| && facts[i].Cand? && Valid(facts[i]) && facts[i].key == key;
      CandWasCarried(r, events, facts[i]);
    }
    forall ev, c | ev in events && CarriesCand(r, ev, key, c)
      ensures key in After(r, events).keys
    {
      CandSaid(r, ev, key, c);
      StreamSays(r, events, Cand(key, c));
      var i :| 0 <= i < |facts| && facts[i] == Cand(key, c);
      assert SaysCand(facts, key);
    }
    forall c | (key, c) in After(r, events).cands
      ensures exists ev :: ev in events && CarriesCand(r, ev, key, c)
    {
      FirstsAreSaid(facts, key, c);
      CandWasCarried(r, events, Cand(key, c));
    }
  }

  lemma CandWasCarried(r: Role, events: seq<Event>, f: Fact)
    requires f in Said(r, events) && f.Cand? && Valid(f)
    ensures exists ev :: ev in events && CarriesCand(r, ev, f.key, f.c)
  {
    StreamSays(r, events, f);
    var ev :| ev in events && f in EventFacts(r, ev);
    CandSaid(r, ev, f.key, f.c);
  }

  lemma {:induction false} FirstsAreSaid(facts: seq<Fact>, key: string, c: Candidate)
    requires (key, c) in Firsts(facts)
    ensures Cand(key, c) in facts && c.text != ""
  {
    var last := |facts| - 1;
    if (key, c) in Firsts(facts[..last]) {
      FirstsAreSaid(facts[..last], key, c);
    } else {
      assert facts[last] == Cand(key, c);
    }
  }

  // --- The snapshot ---

  ghost predicate CarriesSnapshot(ev: Event, s: Snapshot) { exists p :: p in Pieces(ev) && HasSnapshot(p, s) }

  lemma SnapshotSaid(r: Role, ev: Event, s: Snapshot)
    ensures CarriesSnapshot(ev, s) <==> Seen(s) in EventFacts(r, ev)
  {
    EventSays(r, ev, Seen(s));
    forall p | p in Pieces(ev)
      ensures Seen(s) in Facts(r, p.0, p.1) <==> HasSnapshot(p, s)
    {
      PieceSays(r, p, Seen(s));
    }
  }

  lemma {:induction false} SnapshotAfter(o: Outputs, facts: seq<Fact>, s: Snapshot)
    requires forall e :: Seen(e) in facts ==> e == s
    ensures EmitAll(o, facts).snapshot
         == if o.snapshot.Some? then o.snapshot else if Seen(s) in facts then Some(s) else None
    decreases |facts|
  {
    if facts == [] {
    } else {
      assert facts == [facts[0]] + facts[1..];
      SnapshotAfter(Emit(o, facts[0]), facts[1..], s);
    }
  }

  // With none before, a node that names a party is passed on as the snapshot; an event
  // that brings none changes nothing of it.
  lemma FirstSnapshotPasses(r: Role, events: seq<Event>, ev: Event, s: Snapshot)
    requires forall e :: CarriesSnapshot(ev, e) ==> e == s
    ensures After(r, events + [ev]).snapshot
         == if After(r, events).snapshot.Some? then After(r, events).snapshot
            else if CarriesSnapshot(ev, s) then Some(s) else None
  {
    OneMoreEvent(r, events, ev);
    SnapshotSaid(r, ev, s);
    forall e | Seen(e) in EventFacts(r, ev)
      ensures e == s
    {
      SnapshotSaid(r, ev, e);
    }
    SnapshotAfter(After(r, events), EventFacts(r, ev), s);
  }

  // --- The statuses, and the end ---

  function StatusOf(p: (Path, Data)): seq<string>
  {
    var s := if p.0 == [] && p.1.node.Some? then p.1.node.value.status
             else if p.0 == ["status"] && p.1.text.Some? then p.1.text.value else "";
    if s == "" then [] else [s]
  }

  function StatusesOf(pieces: seq<(Path, Data)>): seq<string>
  {
    if pieces == [] then [] else StatusesOf(pieces[..|pieces| - 1]) + StatusOf(pieces[|pieces| - 1])
  }

  lemma {:induction false} StatusesAfter(o: Outputs, facts: seq<Fact>)
    ensures EmitAll(o, facts).statuses == o.statuses + Statuses(facts)
  {
    if facts == [] {
    } else {
      StatusesAfter(o, facts[..|facts| - 1]);
      RunOfLonger(o, facts);
    }
  }

  lemma {:induction false} StatusesOfTwoParts(a: seq<Fact>, b: seq<Fact>)
    ensures Statuses(a + b) == Statuses(a) + Statuses(b)
  {
    if b == [] {
      assert a + b == a;
    } else {
      assert (a + b)[..|a + b| - 1] == a + b[..|b| - 1];
      StatusesOfTwoParts(a, b[..|b| - 1]);
    }
  }

  lemma {:induction false} NoStatus(facts: seq<Fact>)
    requires forall f :: f in facts ==> !f.Status?
    ensures Statuses(facts) == []
  {
    if facts == [] {
    } else {
      NoStatus(facts[..|facts| - 1]);
    }
  }

  lemma PieceStatuses(r: Role, p: (Path, Data))
    ensures Statuses(Facts(r, p.0, p.1)) == StatusOf(p)
  {
    KeysAreApart(r);
    if p.0 == [] && p.1.node.Some? {
      NodeStatuses(r, p.1.node.value);
    } else if p.0 == ["status"] && p.1.text.Some? && p.1.text.value != "" {
      assert [Status(p.1.text.value)][..0] == [];
    } else {
      forall f | f in Facts(r, p.0, p.1)
        ensures !f.Status?
      {
        PieceSays(r, p, f);
      }
      NoStatus(Facts(r, p.0, p.1));
    }
  }

  lemma NodeStatuses(r: Role, n: Node)
    ensures Statuses(NodeFacts(r, n)) == if n.status == "" then [] else [n.status]
  {
    var rest := RestHasNoStatus(r, n);
    StatusesOfTwoParts(Identity(n), rest);
    NoStatus(rest);
    IdentityStatuses(n);
  }

  // A node says who its parties are and its status, and then no status more.
  lemma RestHasNoStatus(r: Role, n: Node) returns (rest: seq<Fact>)
    ensures NodeFacts(r, n) == Identity(n) + rest && forall f :: f in rest ==> !f.Status?
  {
    rest := NodeFacts(r, n)[|Identity(n)|..];
    forall f | f in rest
      ensures !f.Status?
    {
      CandsSay(if r.Host? then n.viewerCands else n.hostCands, f);
    }
  }

  lemma IdentityStatuses(n: Node)
    ensures Statuses(Identity(n)) == if n.status == "" then [] else [n.status]
  {
    var none: seq<Fact> := [];
    var seen := if n.viewer != "" || n.owner != "" then [Seen(Snapshot(n.viewer, n.owner, n.status))] else none;
    NoStatus(seen);
    if n.status == "" {
      assert Identity(n) == seen;
    } else {
      assert Identity(n) == seen + [Status(n.status)];
      assert (seen + [Status(n.status)])[..|seen|] == seen;
    }
  }

  lemma {:induction false} ChildStatuses(r: Role, children: seq<(Path, Data)>)
    ensures Statuses(ChildFacts(r, children)) == StatusesOf(children)
  {
    if children == [] {
    } else {
      var last := |children| - 1;
      ChildStatuses(r, children[..last]);
      PieceStatuses(r, children[last]);
      StatusesOfTwoParts(ChildFacts(r, children[..last]), Facts(r, children[last].0, children[last].1));
    }
  }

  // Every status an event carries goes to the buffer, in order, and nothing else does.
  lemma StatusesPass(r: Role, events: seq<Event>, ev: Event)
    ensures After(r, events + [ev]).statuses == After(r, events).statuses + StatusesOf(Pieces(ev))
  {
    OneMoreEvent(r, events, ev);
    StatusesAfter(After(r, events), EventFacts(r, ev));
    match ev
    case Put(path, data) =>
      if data.missing {
        NoStatus(EventFacts(r, ev));
      } else {
        PieceStatuses(r, (path, data));
        assert [(path, data)][..0] == [];
      }
    case PatchRoot(missing, children) =>
      if missing {
        NoStatus(EventFacts(r, ev));
      } else if children.Some? {
        ChildStatuses(r, children.value);
      }
  }

  // The session is gone exactly if its root was said to be; a child that is missing
  // says nothing.
  lemma OnlyTheRootSaysGone(r: Role, events: seq<Event>, path: Path, data: Data)
    requires path != [] && data.missing
    ensures After(r, events).gone <==> exists ev :: ev in events && RootMissing(ev)
    ensures After(r, events + [Put(path, data)]) == After(r, events)
  {
    StatusesAllPass(Said(r, events));
    StreamSays(r, events, Gone);
    forall ev | ev in events
      ensures Gone in EventFacts(r, ev) <==> RootMissing(ev)
    {
      EventSays(r, ev, Gone);
      forall p | p in Pieces(ev)
        ensures Gone !in Facts(r, p.0, p.1)
      {
        PieceSays(r, p, Gone);
      }
    }
    OneMoreEvent(r, events, Put(path, data));
  }

  // What null decodes to.
  predicate IsNull(data: Data)
  {
    && data.missing && data.node == Some(Node("", "", "", None, None, [], [])) && data.text == Some("")
    && data.desc == Some(Description("", "")) && data.cands == Some([]) && data.cand == Some(Candidate(""))
  }

  lemma {:induction false} InvalidAddNothing(o: Outputs, facts: seq<Fact>)
    requires forall f :: f in facts ==> !Valid(f)
    ensures EmitAll(o, facts) == o
    decreases |facts|
  {
    if facts == [] {
    } else {
      assert facts[0] in facts;
      InvalidAddNothing(o, facts[1..]);
    }
  }

  lemma {:induction false} NullsSayNothing(r: Role, children: seq<(Path, Data)>)
    requires forall p :: p in children ==> IsNull(p.1)
    ensures forall f :: f in ChildFacts(r, children) ==> !Valid(f)
  {
    if children == [] {
    } else {
      var last := |children| - 1;
      NullsSayNothing(r, children[..last]);
      assert IsNull(children[last].1);
      forall f | f in Facts(r, children[last].0, children[last].1)
        ensures !Valid(f)
      {
        PieceSays(r, children[last], f);
      }
    }
  }

  // Children that a patch removes say nothing either.
  lemma RemovedChildrenSayNothing(r: Role, events: seq<Event>, children: seq<(Path, Data)>)
    requires forall p :: p in children ==> IsNull(p.1)
    ensures After(r, events + [PatchRoot(false, Some(children))]) == After(r, events)
  {
    OneMoreEvent(r, events, PatchRoot(false, Some(children)));
    NullsSayNothing(r, children);
    InvalidAddNothing(After(r, events), ChildFacts(r, children));
  }

  // --- A role's own side ---

  // Where a role publishes its own description and candidates.
  predicate OwnPath(r: Role, path: Path)
  {
    path != [] && path[0] in if r.Host? then {"offer", "hostCandidates"} else {"answer", "viewerCandidates"}
  }

  function WithoutOwn(r: Role, data: Data): Data
  {
    if data.node.None? then data
    else
      var n := data.node.value;
      data.(node := Some(if r.Host? then n.(offer := None, hostCands := []) else n.(answer := None, viewerCands := [])))
  }

  // The pieces that are not the role's own, the root's without what is.
  function OthersOf(r: Role, pieces: seq<(Path, Data)>): seq<(Path, Data)>
  {
    if pieces == [] then []
    else
      var last := |pieces| - 1;
      var p := pieces[last];
      if OwnPath(r, p.0) then OthersOf(r, pieces[..last])
      else OthersOf(r, pieces[..last]) + [(p.0, if p.0 == [] then WithoutOwn(r, p.1) else p.1)]
  }

  // A stream with all taken out of it that the role published itself.
  function Others(r: Role, events: seq<Event>): seq<Event>
  {
    if events == [] then []
    else
      (match events[0]
       case Put(path, data) =>
         if OwnPath(r, path) then []
         else [Put(path, if path == [] then WithoutOwn(r, data) else data)]
       case PatchRoot(missing, children) =>
         [PatchRoot(missing, if children.None? then None else Some(OthersOf(r, children.value)))])
      + Others(r, events[1..])
  }

  lemma OwnSaysNothing(r: Role, path: Path, data: Data)
    ensures OwnPath(r, path) ==> Facts(r, path, data) == []
    ensures path == [] ==> Facts(r, path, WithoutOwn(r, data)) == Facts(r, path, data)
  {
    KeysAreApart(r);
  }

  lemma {:induction false} OwnChildrenSayNothing(r: Role, children: seq<(Path, Data)>)
    ensures ChildFacts(r, OthersOf(r, children)) == ChildFacts(r, children)
  {
    if children == [] {
    } else {
      var last := |children| - 1;
      var p := children[last];
      OwnChildrenSayNothing(r, children[..last]);
      OwnSaysNothing(r, p.0, p.1);
      if !OwnPath(r, p.0) {
        var q := (p.0, if p.0 == [] then WithoutOwn(r, p.1) else p.1);
        var others := OthersOf(r, children[..last]);
        assert (others + [q])[..|others|] == others;
      }
    }
  }

  lemma {:induction false} OthersSayAll(r: Role, events: seq<Event>)
    ensures Said(r, Others(r, events)) == Said(r, events)
  {
    if events == [] {
    } else {
      OthersSayAll(r, events[1..]);
      var ev := events[0];
      match ev
      case Put(path, data) =>
        OwnSaysNothing(r, path, data);
        if !OwnPath(r, path) {
          var other := Put(path, if path == [] then WithoutOwn(r, data) else data);
          assert Others(r, events) == [other] + Others(r, events[1..]);
          assert EventFacts(r, other) == EventFacts(r, ev);
        } else {
          assert Others(r, events) == Others(r, events[1..]);
        }
      case PatchRoot(missing, children) =>
        var other := PatchRoot(missing, if children.None? then None else Some(OthersOf(r, children.value)));
        if children.Some? {
          OwnChildrenSayNothing(r, children.value);
        }
        assert Others(r, events) == [other] + Others(r, events[1..]);
    }
  }

  // What a role published itself changes nothing of what it is told, wherever in the
  // stream it comes, the root included: two streams that differ in nothing else come
  // to the same.
  lemma OwnSideChangesNothing(r: Role, events: seq<Event>, changed: seq<Event>)
    requires Others(r, changed) == Others(r, events)
    ensures After(r, changed) == After(r, events)
  {
    OthersSayAll(r, events);
    OthersSayAll(r, changed);
  }
}
