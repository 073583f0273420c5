/** The buffer of statuses, lossy from its old end, while its reader reads whenever it
    likes (emitStatus in host-agent/internal/signaling/rtdb_transport.go). One step is
    one operation on the channel. */
module StatusBuffer {
  import opened Prelude
  import opened Runs

  const ROOM: int := 16

  // Where emitStatus is: not running; past a first select that found no room; past
  // the one that drops the oldest.
  datatype Pc = Idle | Full(status: string) | Dropped(status: string)

  // `sent` is every status that went into the buffer, `next` the number of the first
  // that is not out of it again, and `taken` the numbers of those the reader took;
  // `lost` is whether one found no room at last.
  datatype Buffer = Buffer(held: seq<string>, pc: Pc, sent: seq<string>, next: nat, taken: seq<nat>, lost: bool)

  datatype Action = Emit(status: string) | DropOldest | Push | Take

  const START: Buffer := Buffer([], Idle, [], 0, [], false)

  function Added(b: Buffer, status: string): Buffer
  {
    b.(held := b.held + [status], sent := b.sent + [status], pc := Idle)
  }

  function Step(b: Buffer, a: Action): Buffer
  {
    match a
    case Emit(status) =>
      if !b.pc.Idle? then b else if |b.held| < ROOM then Added(b, status) else b.(pc := Full(status))
    case DropOldest =>
      if !b.pc.Full? then b
      else if b.held == [] then b.(pc := Dropped(b.pc.status))
      else b.(held := b.held[1..], next := b.next + 1, pc := Dropped(b.pc.status))
    case Push =>
      if !b.pc.Dropped? then b
      else if |b.held| < ROOM then Added(b, b.pc.status)
      else b.(pc := Idle, lost := true)
    case Take =>
      if b.held == [] then b else b.(held := b.held[1..], next := b.next + 1, taken := b.taken + [b.next])
  }

  ghost predicate Rising(s: seq<nat>) { forall i, j :: 0 <= i < j < |s| ==> s[i] < s[j] }

  ghost predicate Suffix(b: Buffer)
  {
    && b.next <= |b.sent| && b.held == b.sent[b.next..] && |b.held| <= ROOM
    && (b.pc.Dropped? ==> |b.held| < ROOM) && !b.lost
    && Rising(b.taken) && (forall i :: 0 <= i < |b.taken| ==> b.taken[i] < b.next)
    && (!b.pc.Dropped? && b.held == [] && b.sent != [] ==>
          b.taken != [] && b.taken[|b.taken| - 1] == |b.sent| - 1)
  }

  lemma StepSuffix(b: Buffer, a: Action)
    requires Suffix(b)
    ensures Suffix(Step(b, a))
  {
  }

  // Where emitStatus found no room, sixteen were held, and no more came since.
  ghost predicate FullOnlyAtRoom(b: Buffer)
  {
    b.pc.Full? ==> |b.sent| - 16 <= b.next
  }

  lemma StepFull(b: Buffer, a: Action)
    requires Suffix(b) && FullOnlyAtRoom(b)
    ensures FullOnlyAtRoom(Step(b, a))
    ensures a.Emit? && b.pc.Idle? && |b.held| < 16 ==> Step(b, a) == Added(b, a.status)
    ensures a.DropOldest? && Step(b, a).next > b.next ==> b.pc.Full? && |b.sent| - 16 <= b.next
  {
  }

  function After(actions: seq<Action>): Buffer { Run(Step, START, actions) }

  // Whatever is read when: the buffer holds the newest statuses, in order and without
  // a gap; the newest of all is in it unless the reader has taken it; none ever finds
  // no room; and the reader takes none twice and none out of order.
  lemma NewestIsKept(actions: seq<Action>)
    ensures var b := After(actions);
            && b.next <= |b.sent| && b.held == b.sent[b.next..] && |b.held| <= ROOM && !b.lost
            && Rising(b.taken)
            && (b.pc.Idle? && b.sent != [] ==>
                  if b.held == [] then b.taken != [] && b.taken[|b.taken| - 1] == |b.sent| - 1
                  else b.held[|b.held| - 1] == b.sent[|b.sent| - 1])
  {
    forall b, a | Suffix(b)
      ensures Suffix(Step(b, a))
    {
      StepSuffix(b, a);
    }
    RunKeeps(Step, START, actions, Suffix, _ => true);
  }

  // A status goes straight into a buffer that holds fewer than sixteen; and whenever one
  // is dropped, it is one of the sixteen there were when the newest found no room.
  lemma DroppedOnlyWhenFull(actions: seq<Action>, a: Action)
    ensures var b, c := After(actions), After(actions + [a]);
            && (a.Emit? && b.pc.Idle? && |b.held| < 16 ==> c == Added(b, a.status))
            && (a.DropOldest? && c.next > b.next ==> b.pc.Full? && |b.sent| - 16 <= b.next)
  {
    forall b, x | Suffix(b) && FullOnlyAtRoom(b)
      ensures Suffix(Step(b, x)) && FullOnlyAtRoom(Step(b, x))
    {
      StepSuffix(b, x);
      StepFull(b, x);
    }
    RunKeeps(Step, START, actions, b => Suffix(b) && FullOnlyAtRoom(b), _ => true);
    RunOfTwoParts(Step, START, actions, [a]);
    RunOfOne(Step, After(actions), a);
    StepFull(After(actions), a);
  }
}
