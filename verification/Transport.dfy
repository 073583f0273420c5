/** The transport as the object it is, updated in place
    (host-agent/internal/signaling/rtdb_transport.go). */
module Transport {
  import opened Prelude
  import opened Signaling
  import Runs
  import StatusBuffer

  class RTDBTransport {
    const role: Role
    var seenCand: set<string>
    var snapshot: Option<Snapshot>   // once sent, no other is
    var remoteDesc: Option<Description>
    var remoteCand: Candidates
    var status: seq<string>          // the buffer
    var emitted: seq<string>         // everything it was given
    var gone: bool

    constructor (role: Role)
      ensures this.role == role && View() == NOTHING && status == []
    {
      this.role := role;
      seenCand, snapshot, remoteDesc, remoteCand, status, emitted, gone := {}, None, None, [], [], [], false;
    }

    function View(): Outputs
      reads this
    {
      Outputs(seenCand, snapshot, remoteDesc, remoteCand, emitted, gone)
    }

    // emitStatus, when nobody reads meanwhile.
    method EmitStatus(s: string)
      requires |status| <= StatusBuffer.ROOM
      modifies this`status, this`emitted
      ensures View() == Emit(old(View()), Status(s)) && |status| <= StatusBuffer.ROOM
      ensures status == (if |old(status)| < StatusBuffer.ROOM then old(status) else old(status)[1..]) + [s]
    {
      emitted := emitted + [s];
      if |status| < StatusBuffer.ROOM {
        status := status + [s];
        return;
      }
      status := status[1..];
      status := status + [s];
    }

    method EmitSnapshot(s: Snapshot)
      modifies this`snapshot
      ensures View() == Emit(old(View()), Seen(s))
    {
      if snapshot.None? {
        snapshot := Some(s);
      }
    }

    method EmitDescription(d: Description)
      modifies this`remoteDesc
      ensures View() == Emit(old(View()), Desc(d))
    {
      if d.t == "" || d.sdp == "" {
        return;
      }
      if remoteDesc.None? {
        remoteDesc := Some(d);
      }
    }

    method EmitCandidate(key: string, c: Candidate)
      modifies this`seenCand, this`remoteCand
      ensures View() == Emit(old(View()), Cand(key, c))
    {
      if c.text == "" {
        return;
      }
      var dup := key in seenCand;
      seenCand := seenCand + {key};
      if dup {
        assert seenCand == old(seenCand);
        return;
      }
      remoteCand := remoteCand + [(key, c)];
    }

    method MarkGone()
      modifies this`gone
      ensures View() == Emit(old(View()), Gone)
    {
      gone := true;
    }

    method EmitCandidates(cands: Candidates)
      modifies this`seenCand, this`remoteCand
      ensures View() == EmitAll(old(View()), CandFacts(cands))
    {
      ghost var facts := CandFacts(cands);
      EmitNone(View());
      for i := 0 to |cands|
        invariant View() == EmitAll(old(View()), facts[..i])
      {
        EmitCandidate(cands[i].0, cands[i].1);
        EmitOneMore(old(View()), facts, i);
      }
      assert facts[..|cands|] == facts;
    }

    method RouteIdentity(n: Node)
      requires |status| <= StatusBuffer.ROOM
      modifies this`snapshot, this`status, this`emitted
      ensures View() == EmitAll(old(View()), Identity(n)) && |status| <= StatusBuffer.ROOM
    {
      ghost var o := View();
      var seen := Seen(Snapshot(n.viewer, n.owner, n.status));
      EmitNone(o);
      EmitSingle(o, seen);
      EmitSingle(o, Status(n.status));
      EmitAppended(o, [seen], Status(n.status));
      var none: seq<Fact> := [];
      assert none + [Status(n.status)] == [Status(n.status)] && [seen] + none == [seen] && none + none == none;
      if n.viewer != "" || n.owner != "" {
        EmitSnapshot(seen.s);
      }
      if n.status != "" {
        EmitStatus(n.status);
      }
    }

    method RouteNode(n: Node)
      requires |status| <= StatusBuffer.ROOM
      modifies this
      ensures View() == EmitAll(old(View()), NodeFacts(role, n)) && |status| <= StatusBuffer.ROOM
    {
      ghost var o, facts := View(), Identity(n);
      RouteIdentity(n);
      var d := if role.Host? then n.answer else n.offer;
      if d.Some? {
        EmitAppended(o, facts, Desc(d.value));
        EmitDescription(d.value);
        facts := facts + [Desc(d.value)];
      }
      var cands := if role.Host? then n.viewerCands else n.hostCands;
      EmitJoined(o, facts, CandFacts(cands));
      EmitCandidates(cands);
      assert facts + CandFacts(cands) == NodeFacts(role, n);
    }

    method Route(path: Path, data: Data)
      requires |status| <= StatusBuffer.ROOM
      modifies this
      ensures View() == EmitAll(old(View()), Facts(role, path, data)) && |status| <= StatusBuffer.ROOM
    {
      ghost var o := View();
      EmitNone(o);
      if path == [] {
        if data.node.Some? {
          RouteNode(data.node.value);
        }
      } else if path == ["status"] {
        if data.text.Some? && data.text.value != "" {
          EmitSingle(o, Status(data.text.value));
          EmitStatus(data.text.value);
        }
      } else if path == [RemoteDescKey(role)] {
        if data.desc.Some? {
          EmitSingle(o, Desc(data.desc.value));
          EmitDescription(data.desc.value);
        }
      } else if path == [RemoteCandKey(role)] {
        if data.cands.Some? {
          EmitCandidates(data.cands.value);
        }
      } else if |path| == 2 && path[0] == RemoteCandKey(role) {
        if data.cand.Some? {
          EmitSingle(o, Cand(path[1], data.cand.value));
          EmitCandidate(path[1], data.cand.value);
        }
      }
    }

    method RouteChildren(children: seq<(Path, Data)>)
      requires |status| <= StatusBuffer.ROOM
      modifies this
      ensures View() == EmitAll(old(View()), ChildFacts(role, children)) && |status| <= StatusBuffer.ROOM
    {
      ghost var o := View();
      EmitNone(o);
      for i := 0 to |children|
        invariant View() == EmitAll(o, ChildFacts(role, children[..i])) && |status| <= StatusBuffer.ROOM
      {
        assert children[..i + 1][..i] == children[..i];
        EmitJoined(o, ChildFacts(role, children[..i]), Facts(role, children[i].0, children[i].1));
        Route(children[i].0, children[i].1);
      }
      assert children[..|children|] == children;
    }

    method Demux(ev: Event)
      requires |status| <= StatusBuffer.ROOM
      modifies this
      ensures View() == EmitAll(old(View()), EventFacts(role, ev)) && |status| <= StatusBuffer.ROOM
    {
      EmitNone(View());
      EmitSingle(View(), Gone);
      match ev
      case Put(path, data) =>
        if data.missing {
          if path == [] {
            MarkGone();
          }
          return;
        }
        Route(path, data);
      case PatchRoot(missing, children) =>
        if missing {
          MarkGone();
        } else if children.Some? {
          RouteChildren(children.value);
        }
    }

    // The stream, event after event.
    method Consume(events: seq<Event>)
      requires View() == NOTHING && status == []
      modifies this
      ensures View() == After(role, events)
    {
      EmitNone(View());
      for i := 0 to |events|
        invariant View() == EmitAll(NOTHING, Said(role, events[..i])) && |status| <= StatusBuffer.ROOM
      {
        SaidOfTwoParts(role, events[..i], [events[i]]);
        assert events[..i] + [events[i]] == events[..i + 1] && [events[i]][1..] == [];
        assert Said(role, [events[i]]) == EventFacts(role, events[i]) + Said(role, []) == EventFacts(role, events[i]);
        EmitJoined(NOTHING, Said(role, events[..i]), EventFacts(role, events[i]));
        Demux(events[i]);
      }
      assert events[..|events|] == events;
    }
  }

  lemma EmitNone(o: Outputs)
    ensures EmitAll(o, []) == o
  {
  }

  lemma EmitSingle(o: Outputs, f: Fact)
    ensures EmitAll(o, [f]) == Emit(o, f)
  {
    RunOfLonger(o, [f]);
    assert [f][..0] == [];
  }

  lemma EmitAppended(o: Outputs, facts: seq<Fact>, f: Fact)
    ensures EmitAll(o, facts + [f]) == Emit(EmitAll(o, facts), f)
  {
    RunOfLonger(o, facts + [f]);
    assert (facts + [f])[..|facts|] == facts;
  }

  lemma EmitOneMore(o: Outputs, facts: seq<Fact>, i: nat)
    requires i < |facts|
    ensures EmitAll(o, facts[..i + 1]) == Emit(EmitAll(o, facts[..i]), facts[i])
  {
    assert facts[..i + 1] == facts[..i] + [facts[i]];
    EmitAppended(o, facts[..i], facts[i]);
  }

  lemma EmitJoined(o: Outputs, a: seq<Fact>, b: seq<Fact>)
    ensures EmitAll(o, a + b) == EmitAll(EmitAll(o, a), b)
  {
    Runs.RunOfTwoParts(Emit, o, a, b);
  }
}
