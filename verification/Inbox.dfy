/** Handling each connection request once, though the stream replays them and the
    memory of them is swept (host-agent/internal/session/inbox.go). Times are in
    nanoseconds of the host's clock; a request's time is the server's. */
module Inbox {
  import opened Prelude

  const STALE_REQUEST_AGE: int := 300_000_000_000

  datatype Entry = Entry(viewer: string, code: string, created: int)

  // One delivery of a request, and the time the host's clock then says.
  datatype Delivery = Delivery(now: int, id: string, entry: Entry)

  // What a dispatch does: the entry is removed from the database; the request is
  // handled.
  datatype Effect = Remove(id: string) | Handle(id: string, entry: Entry)

  type Seen = map<string, int>

  // forget.
  function Swept(seen: Seen, now: int): Seen
  {
    map id | id in seen && now - seen[id] <= STALE_REQUEST_AGE :: seen[id]
  }

  predicate Usable(d: Delivery) { d.entry.viewer != "" && d.now - d.entry.created <= STALE_REQUEST_AGE }

  function Effects(d: Delivery): seq<Effect>
  {
    [Remove(d.id)] + if Usable(d) then [Handle(d.id, d.entry)] else []
  }

  // dispatch.
  function Dispatched(seen: Seen, d: Delivery): (Seen, seq<Effect>)
  {
    var kept := Swept(seen, d.now);
    if d.id in kept then (kept, []) else (kept[d.id := d.now], Effects(d))
  }

  function SeenAfter(ds: seq<Delivery>): Seen
  {
    if ds == [] then map[] else Dispatched(SeenAfter(ds[..|ds| - 1]), ds[|ds| - 1]).0
  }

  function AllEffects(ds: seq<Delivery>): seq<Effect>
  {
    if ds == [] then []
    else AllEffects(ds[..|ds| - 1]) + Dispatched(SeenAfter(ds[..|ds| - 1]), ds[|ds| - 1]).1
  }

  // The requests handled.
  function Handled(effects: seq<Effect>): seq<Effect>
  {
    if effects == [] then []
    else
      var last := |effects| - 1;
      if effects[last].Handle? then Handled(effects[..last]) + [effects[last]] else Handled(effects[..last])
  }

  lemma {:induction false} HandledOfTwoParts(a: seq<Effect>, b: seq<Effect>)
    ensures Handled(a + b) == Handled(a) + Handled(b)
  {
    if b == [] {
      assert a + b == a;
    } else {
      assert (a + b)[..|a + b| - 1] == a + b[..|b| - 1];
      HandledOfTwoParts(a, b[..|b| - 1]);
    }
  }

  // --- The reference: a memory that never forgets ---

  predicate Before(ds: seq<Delivery>, id: string) { exists i :: 0 <= i < |ds| && ds[i].id == id }

  // The requests handled by an inbox that never forgets one.
  function Once(ds: seq<Delivery>): seq<Effect>
  {
    if ds == [] then []
    else
      var last := |ds| - 1;
      if !Before(ds[..last], ds[last].id) && Usable(ds[last]) then
        Once(ds[..last]) + [Handle(ds[last].id, ds[last].entry)]
      else Once(ds[..last])
  }

  // Delivery j is of a request seen before and forgotten, and is still usable.
  predicate Again(ds: seq<Delivery>, j: nat)
    requires j < |ds|
  {
    && Before(ds[..j], ds[j].id) && Usable(ds[j])
    && ds[j].id !in Swept(SeenAfter(ds[..j]), ds[j].now)
  }

  function Agains(ds: seq<Delivery>): nat
  {
    if ds == [] then 0
    else
      Agains(ds[..|ds| - 1]) + if Again(ds, |ds| - 1) then 1 else 0
  }

  ghost predicate ClockRuns(ds: seq<Delivery>) { forall i, j :: 0 <= i <= j < |ds| ==> ds[i].now <= ds[j].now }

  lemma {:induction false} RememberedWasSeen(ds: seq<Delivery>, id: string)
    requires id in SeenAfter(ds)
    ensures Before(ds, id)
  {
    var last := |ds| - 1;
    if ds[last].id == id {
    } else {
      RememberedWasSeen(ds[..last], id);
      var i :| 0 <= i < last && ds[..last][i].id == id;
      assert ds[i].id == id;
    }
  }

  lemma StepHandles(ds: seq<Delivery>)
    requires ds != []
    ensures var last := |ds| - 1;
            var front := ds[..last];
            Handled(AllEffects(ds)) == Handled(AllEffects(front))
              + if Usable(ds[last]) && ds[last].id !in Swept(SeenAfter(front), ds[last].now)
                then [Handle(ds[last].id, ds[last].entry)] else []
  {
    var last := |ds| - 1;
    var more := Dispatched(SeenAfter(ds[..last]), ds[last]).1;
    HandledOfTwoParts(AllEffects(ds[..last]), more);
    if more != [] {
      var d := ds[last];
      assert more == [Remove(d.id)] + if Usable(d) then [Handle(d.id, d.entry)] else [];
      HandledOfTwoParts([Remove(d.id)], if Usable(d) then [Handle(d.id, d.entry)] else []);
      HandledOne(Remove(d.id));
      HandledOne(Handle(d.id, d.entry));
    }
  }

  lemma HandledOne(e: Effect)
    ensures Handled([e]) == if e.Handle? then [e] else []
  {
    assert [e][..0] == [];
  }

  // Each delivery that is handled again is one more than the reference handles, and
  // there is no other difference.
  lemma {:induction false} HandledCounts(ds: seq<Delivery>)
    ensures |Handled(AllEffects(ds))| == |Once(ds)| + Agains(ds)
    ensures Agains(ds) == 0 ==> Handled(AllEffects(ds)) == Once(ds)
  {
    if ds == [] {
    } else {
      var last := |ds| - 1;
      HandledCounts(ds[..last]);
      StepHandles(ds);
      if ds[last].id in Swept(SeenAfter(ds[..last]), ds[last].now) {
        RememberedWasSeen(ds[..last], ds[last].id);
      }
    }
  }

  // With a clock that does not go back, a request is remembered from its first
  // delivery on, or that delivery is more than five minutes ago.
  lemma {:induction false} RememberedOrOld(ds: seq<Delivery>, f: nat)
    requires ClockRuns(ds) && f < |ds| && !Before(ds[..f], ds[f].id)
    ensures if ds[f].id in SeenAfter(ds) then SeenAfter(ds)[ds[f].id] >= ds[f].now
            else ds[|ds| - 1].now - ds[f].now > STALE_REQUEST_AGE
  {
    var last := |ds| - 1;
    var front := ds[..last];
    if f == last {
      if ds[f].id in SeenAfter(front) {
        RememberedWasSeen(front, ds[f].id);
      }
    } else {
      assert front[..f] == ds[..f];
      RememberedOrOld(front, f);
      assert front[last - 1] == ds[last - 1];
    }
  }

  lemma {:induction false} FirstDelivery(ds: seq<Delivery>, id: string) returns (f: nat)
    requires Before(ds, id)
    ensures f < |ds| && ds[f].id == id && !Before(ds[..f], id)
  {
    var i :| 0 <= i < |ds| && ds[i].id == id;
    if Before(ds[..i], id) {
      f := FirstDelivery(ds[..i], id);
      assert ds[..i][..f] == ds[..f];
    } else {
      f := i;
    }
  }

  // --- When forgetting does harm ---

  // A request is delivered, still usable, more than five minutes after it was before.
  ghost predicate ComesLate(ds: seq<Delivery>)
  {
    exists i, j :: 0 <= i < j < |ds| && ds[i].id == ds[j].id && LateAfter(ds[i], ds[j])
  }

  predicate LateAfter(d: Delivery, e: Delivery) { Usable(e) && e.now - d.now > STALE_REQUEST_AGE }

  // However often it is replayed, a request is one entry of the database.
  ghost predicate OneEntryEach(ds: seq<Delivery>)
  {
    forall i, j :: 0 <= i < |ds| && 0 <= j < |ds| && ds[i].id == ds[j].id ==> ds[i].entry == ds[j].entry
  }

  lemma LateWas(ds: seq<Delivery>, n: nat)
    requires n <= |ds| && ComesLate(ds[..n])
    ensures ComesLate(ds)
  {
    var i, j :| 0 <= i < j < n && ds[..n][i].id == ds[..n][j].id && LateAfter(ds[..n][i], ds[..n][j]);
    assert ds[i].id == ds[j].id && LateAfter(ds[i], ds[j]);
  }

  lemma {:induction false} NeverAgain(ds: seq<Delivery>)
    requires ClockRuns(ds) && !ComesLate(ds)
    ensures Agains(ds) == 0
  {
    if ds == [] {
    } else {
      var last := |ds| - 1;
      if ComesLate(ds[..last]) {
        LateWas(ds, last);
      }
      NeverAgain(ds[..last]);
      if Again(ds, last) {
        AgainIsLate(ds);
      }
    }
  }

  lemma AgainIsLate(ds: seq<Delivery>)
    requires ClockRuns(ds) && ds != [] && Again(ds, |ds| - 1)
    ensures ComesLate(ds)
  {
    var last := |ds| - 1;
    var front := ds[..last];
    var f := FirstDelivery(front, ds[last].id);
    assert front[..f] == ds[..f] && front[f] == ds[f] && front[last - 1] == ds[last - 1];
    RememberedOrOld(front, f);
    assert ds[f].id == ds[last].id && LateAfter(ds[f], ds[last]);
  }

  // While nothing usable is handled again, a request that stays usable is remembered,
  // if at all, for its first delivery.
  lemma {:induction false} RememberedForFirst(ds: seq<Delivery>, f: nat)
    requires f < |ds| && !Before(ds[..f], ds[f].id) && Agains(ds) == 0
    requires forall k :: 0 <= k < |ds| && ds[k].id == ds[f].id ==> Usable(ds[k])
    ensures ds[f].id in SeenAfter(ds) ==> SeenAfter(ds)[ds[f].id] == ds[f].now
  {
    var last := |ds| - 1;
    var front := ds[..last];
    if f == last {
      if ds[f].id in SeenAfter(front) {
        RememberedWasSeen(front, ds[f].id);
      }
    } else {
      assert front[..f] == ds[..f] && front[f] == ds[f];
      RememberedForFirst(front, f);
      if ds[last].id == ds[f].id {
        assert Before(front, ds[last].id) && Usable(ds[last]);
        assert !Again(ds, last);
      }
    }
  }

  lemma {:induction false} AgainsOfPrefix(ds: seq<Delivery>, n: nat)
    requires n <= |ds|
    ensures Agains(ds[..n]) <= Agains(ds)
  {
    if n == |ds| {
      assert ds[..n] == ds;
    } else {
      AgainsOfPrefix(ds[..|ds| - 1], n);
      assert ds[..|ds| - 1][..n] == ds[..n];
    }
  }

  lemma EarlierIsUsable(ds: seq<Delivery>, k: nat, j: nat)
    requires ClockRuns(ds) && OneEntryEach(ds) && k <= j < |ds| && ds[k].id == ds[j].id && Usable(ds[j])
    ensures Usable(ds[k])
  {
    assert ds[k].now <= ds[j].now && ds[k].entry == ds[j].entry;
  }

  lemma LateIsAgain(ds: seq<Delivery>, i: nat, j: nat)
    requires ClockRuns(ds) && OneEntryEach(ds)
    requires i < j < |ds| && ds[i].id == ds[j].id && LateAfter(ds[i], ds[j])
    ensures Agains(ds) > 0
  {
    var upTo := ds[..j + 1];
    AgainsOfPrefix(ds, j + 1);
    AgainsOfPrefix(upTo, j);
    assert upTo[..j] == ds[..j];
    if Agains(ds[..j]) == 0 {
      LateIsForgotten(ds, i, j);
      assert Again(upTo, j);
    }
  }

  lemma WasBefore(ds: seq<Delivery>, i: nat, n: nat)
    requires i < n <= |ds|
    ensures Before(ds[..n], ds[i].id)
  {
    assert ds[..n][i].id == ds[i].id;
  }

  lemma LateIsForgotten(ds: seq<Delivery>, i: nat, j: nat)
    requires ClockRuns(ds) && OneEntryEach(ds)
    requires i < j < |ds| && ds[i].id == ds[j].id && LateAfter(ds[i], ds[j]) && Agains(ds[..j]) == 0
    ensures Before(ds[..j], ds[j].id) && ds[j].id !in Swept(SeenAfter(ds[..j]), ds[j].now)
  {
    var front := ds[..j];
    assert front[i].id == ds[j].id;
    var f := FirstDelivery(front, ds[j].id);
    if i < f {
      WasBefore(front, i, f);
    }
    forall k | 0 <= k < |front| && front[k].id == front[f].id
      ensures Usable(front[k])
    {
      EarlierIsUsable(ds, k, j);
    }
    RememberedForFirst(front, f);
    assert ds[f].now <= ds[i].now;
  }

  // The swept memory is as good as one that never forgets exactly when no request comes
  // more than five minutes after an earlier delivery of it and is then still usable.
  lemma SweepingIsHarmlessIff(ds: seq<Delivery>)
    requires ClockRuns(ds) && OneEntryEach(ds)
    ensures Handled(AllEffects(ds)) == Once(ds) <==> !ComesLate(ds)
  {
    HandledCounts(ds);
    if ComesLate(ds) {
      var i, j :| 0 <= i < j < |ds| && ds[i].id == ds[j].id && LateAfter(ds[i], ds[j]);
      LateIsAgain(ds, i, j);
    } else {
      NeverAgain(ds);
    }
  }

  // Each time a request is delivered, it was stamped no later than each time it was
  // delivered before.
  ghost predicate StampedBefore(ds: seq<Delivery>)
  {
    forall i, j :: 0 <= i <= j < |ds| && ds[i].id == ds[j].id ==> ds[j].entry.created <= ds[i].now
  }

  // So if the clock does not go back and no request is stamped later than its first
  // delivery, whatever is replayed, each request is handled as if nothing was ever
  // forgotten, even one whose entry changes.
  lemma SweepingIsHarmless(ds: seq<Delivery>)
    requires ClockRuns(ds) && StampedBefore(ds)
    ensures Handled(AllEffects(ds)) == Once(ds)
  {
    forall i, j | 0 <= i < j < |ds| && ds[i].id == ds[j].id
      ensures !LateAfter(ds[i], ds[j])
    {
      assert ds[j].entry.created <= ds[i].now;
    }
    NeverAgain(ds);
    HandledCounts(ds);
  }

  // --- What is handled ---

  // The first delivery of a request is handled exactly if it names a viewer and is no more
  // than five minutes old.
  lemma FirstIsHandledIfFresh(ds: seq<Delivery>)
    requires ds != [] && !Before(ds[..|ds| - 1], ds[|ds| - 1].id)
    ensures var front, d := ds[..|ds| - 1], ds[|ds| - 1];
            Handled(AllEffects(ds)) == Handled(AllEffects(front))
              + if d.entry.viewer != "" && d.now - d.entry.created <= 300_000_000_000 then
                  [Handle(d.id, d.entry)]
                else []
  {
    StepHandles(ds);
    var front, d := ds[..|ds| - 1], ds[|ds| - 1];
    if d.id in SeenAfter(front) {
      RememberedWasSeen(front, d.id);
    }
  }

  // --- What is taken out of the database ---

  // Every request delivered is taken out of the database, stale or malformed or not.
  lemma {:induction false} AllAreRemoved(ds: seq<Delivery>, j: nat)
    requires j < |ds|
    ensures Remove(ds[j].id) in AllEffects(ds)
  {
    var last := |ds| - 1;
    if j < last {
      AllAreRemoved(ds[..last], j);
    } else if ds[j].id in Swept(SeenAfter(ds[..last]), ds[j].now) {
      RememberedWasSeen(ds[..last], ds[j].id);
      var i :| 0 <= i < last && ds[..last][i].id == ds[j].id;
      AllAreRemoved(ds[..last], i);
    }
  }

  // A request is handled only right after it was taken out.
  lemma {:induction false} RemovedBeforeHandled(ds: seq<Delivery>, i: nat)
    requires i < |AllEffects(ds)| && AllEffects(ds)[i].Handle?
    ensures i > 0 && AllEffects(ds)[i - 1] == Remove(AllEffects(ds)[i].id)
  {
    var front := ds[..|ds| - 1];
    if i < |AllEffects(front)| {
      RemovedBeforeHandled(front, i);
    } else {
      assert Effects(ds[|ds| - 1])[i - |AllEffects(front)|] == AllEffects(ds)[i];
    }
  }

  // An inbox that never forgets handles no request twice.
  lemma {:induction false} OnceIsOnce(ds: seq<Delivery>)
    ensures forall i, j :: 0 <= i < j < |Once(ds)| ==> Once(ds)[i].id != Once(ds)[j].id
    ensures forall i :: 0 <= i < |Once(ds)| ==> Once(ds)[i].Handle? && Before(ds, Once(ds)[i].id)
  {
    if ds == [] {
    } else {
      var last := |ds| - 1;
      OnceIsOnce(ds[..last]);
      forall id | Before(ds[..last], id)
        ensures Before(ds, id)
      {
        var i :| 0 <= i < last && ds[..last][i].id == id;
        assert ds[i].id == id;
      }
      assert Before(ds, ds[last].id);
    }
  }

  // What is remembered is what was dispatched within the last five minutes.
  lemma {:induction false} MemoryIsRecent(ds: seq<Delivery>, id: string)
    requires ClockRuns(ds) && id in SeenAfter(ds)
    ensures 0 <= ds[|ds| - 1].now - SeenAfter(ds)[id] <= STALE_REQUEST_AGE
  {
    var last := |ds| - 1;
    var front := ds[..last];
    if id !in Swept(SeenAfter(front), ds[last].now) {
    } else {
      MemoryIsRecent(front, id);
      assert front[last - 1] == ds[last - 1];
    }
  }

  // A server whose clock is ten minutes ahead of the host's: a request replayed six
  // minutes after it was handled is handled again.
  lemma ServerAheadHandlesTwice(entry: Entry)
    requires entry.viewer != "" && entry.created == 600_000_000_000
    ensures var ds := [Delivery(0, "a", entry), Delivery(360_000_000_000, "a", entry)];
            Handled(AllEffects(ds)) == [Handle("a", entry), Handle("a", entry)] && |Once(ds)| == 1
  {
    var one := [Delivery(0, "a", entry)];
    var ds := [Delivery(0, "a", entry), Delivery(360_000_000_000, "a", entry)];
    assert one[..0] == [] && ds[..1] == one;
    assert SeenAfter([]) == map[];
    assert SeenAfter(one) == map["a" := 0];
    StepHandles(one);
    StepHandles(ds);
    assert ds[0].id == "a" && one[0].id == "a";
    assert Before(one, "a");
    HandledCounts(ds);
  }

  lemma OneMore(ds: seq<Delivery>, d: Delivery)
    ensures SeenAfter(ds + [d]) == Dispatched(SeenAfter(ds), d).0
    ensures AllEffects(ds + [d]) == AllEffects(ds) + Dispatched(SeenAfter(ds), d).1
  {
    assert (ds + [d])[..|ds|] == ds;
  }

  // --- The inbox as an object ---

  class Inbox {
    var seen: Seen
    var effects: seq<Effect>

    constructor ()
      ensures seen == map[] && effects == []
    {
      seen, effects := map[], [];
    }

    // forget.
    method Forget(now: int)
      modifies this`seen
      ensures seen == Swept(old(seen), now)
    {
      var rest := seen.Keys;
      while rest != {}
        invariant rest <= old(seen).Keys && rest <= seen.Keys
        invariant seen ==
                  map id | id in old(seen) && (id in rest || now - old(seen)[id] <= STALE_REQUEST_AGE) :: old(seen)[id]
        decreases rest
      {
        var id := AnyOf(rest);
        if now - seen[id] > STALE_REQUEST_AGE {
          seen := seen - {id};
        }
        rest := rest - {id};
      }
    }

    // dispatch.
    method Dispatch(d: Delivery)
      modifies this
      ensures (seen, effects) == (Dispatched(old(seen), d).0, old(effects) + Dispatched(old(seen), d).1)
    {
      Forget(d.now);
      if d.id in seen {
        assert effects == old(effects) + [];
        return;
      }
      seen := seen[d.id := d.now];
      effects := effects + [Remove(d.id)];
      var age := d.now - d.entry.created;
      if d.entry.viewer == "" || age > STALE_REQUEST_AGE {
        assert [Remove(d.id)] == [Remove(d.id)] + [];
        return;
      }
      effects := effects + [Handle(d.id, d.entry)];
      assert effects == old(effects) + ([Remove(d.id)] + [Handle(d.id, d.entry)]);
    }

    // The same, as the next of all deliveries.
    method DispatchAfter(ghost ds: seq<Delivery>, d: Delivery)
      requires seen == SeenAfter(ds) && effects == AllEffects(ds)
      modifies this
      ensures seen == SeenAfter(ds + [d]) && effects == AllEffects(ds + [d])
    {
      OneMore(ds, d);
      Dispatch(d);
    }

    // handleData, for the entries one event brings, in the order they are walked; `ds`
    // is what was delivered before.
    method HandleData(batch: seq<Delivery>, ghost ds: seq<Delivery>)
      requires seen == SeenAfter(ds) && effects == AllEffects(ds)
      modifies this
      ensures seen == SeenAfter(ds + batch) && effects == AllEffects(ds + batch)
    {
      ghost var done := ds;
      for i := 0 to |batch|
        invariant done + batch[i..] == ds + batch && seen == SeenAfter(done) && effects == AllEffects(done)
      {
        Front(done, batch, i);
        DispatchAfter(done, batch[i]);
        done := done + [batch[i]];
      }
      assert done == ds + batch;
    }
  }

  lemma Front(done: seq<Delivery>, batch: seq<Delivery>, i: nat)
    requires i < |batch|
    ensures done + [batch[i]] + batch[i + 1..] == done + batch[i..]
  {
  }
}
