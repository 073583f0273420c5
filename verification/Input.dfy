/** What is held down, kept twice: by a session's handler as browser key codes
    (host-agent/internal/input/handler.go) and by the injector as Mac key codes
    (host-agent/internal/input/inject_darwin.go), behind the gate that closes while
    the operator is asked something (host-agent/internal/session/inputgate.go). */
module Input {
  import opened Prelude
  import opened Runs

  type Code = string
  type Key = int

  // The modifier keys' codes (host-agent/internal/input/keys_darwin.go).
  const RIGHT_COMMAND: Key := 0x36
  const COMMAND: Key := 0x37
  const CAPS_LOCK: Key := 0x39

  // One bit of an event's flags: the nine masks and device bits in use.
  datatype Bit =
    | AlphaShift | Shift | Control | Alternate | Command | SecondaryFn
    | LeftShift | RightShift | LeftControl | RightControl | LeftOption | RightOption | LeftCommand | RightCommand

  const MODIFIERS: set<Key> := {0x36, 0x37, 0x38, 0x3A, 0x3B, 0x3C, 0x3D, 0x3E, 0x3F}

  function ModifierFlags(k: Key): set<Bit>
  {
    match k
    case 0x38 => {Shift, LeftShift}
    case 0x3C => {Shift, RightShift}
    case 0x3B => {Control, LeftControl}
    case 0x3E => {Control, RightControl}
    case 0x3A => {Alternate, LeftOption}
    case 0x3D => {Alternate, RightOption}
    case 0x37 => {Command, LeftCommand}
    case 0x36 => {Command, RightCommand}
    case 0x3F => {SecondaryFn}
    case _ => {}
  }

  // An event as it is posted. The position of a mouse event is where the display has
  // it; click counts are not part of this model.
  datatype MouseKind = Moved | Dragged | Pressed | Lifted
  datatype Event =
    | Mouse(kind: MouseKind, button: int, at: (real, real), flags: set<Bit>)
    | KeyEvent(key: Key, down: bool, again: bool, flags: set<Bit>)
    | FlagsChanged(key: Key, flags: set<Bit>)
    | Scroll(vertical: int, horizontal: int, flags: set<Bit>)

  // What the Mac decides: which key a code is; whether a question whether the agent
  // may post is answered yes; the order in which a map is walked; and the width and
  // height of the main display, if there is one. Questions are told apart by how many
  // there were before.
  datatype Mac = Mac(codes: map<Code, Key>, may: nat -> bool, order: (nat, set<Key>) -> seq<Key>,
                     screen: nat -> Option<(real, real)>)

  ghost predicate Enumerates(order: seq<Key>, s: set<Key>)
  {
    (forall i, j :: 0 <= i < j < |order| ==> order[i] != order[j]) && (set k | k in order) == s
  }

  ghost predicate Sound(mac: Mac)
  {
    && (forall a, b :: a in mac.codes && b in mac.codes && mac.codes[a] == mac.codes[b] ==> a == b)
    && (forall n, s :: Enumerates(mac.order(n, s), s))
  }

  // --- The injector ---

  // `out` is what was posted, `asked` how often the question was put.
  datatype Cg = Cg(mods: set<Key>, keys: set<Key>, caps: bool, buttons: seq<bool>, at: (real, real),
                   asked: nat, out: seq<Event>)

  const NO_BUTTONS: seq<bool> := [false, false, false]

  const CG_START: Cg := Cg({}, {}, false, NO_BUTTONS, (0.0, 0.0), 0, [])

  // What every event says is held.
  function FlagsOf(mods: set<Key>, caps: bool): set<Bit>
  {
    (set k, b | k in mods && b in ModifierFlags(k) :: b) + (if caps then {AlphaShift} else {})
  }

  function Post(mac: Mac, c: Cg, e: Event): Cg
  {
    c.(asked := c.asked + 1, out := if mac.may(c.asked) then c.out + [e] else c.out)
  }

  // clamp01.
  function Clamp(v: real): real { if v < 0.0 then 0.0 else if v > 1.0 then 1.0 else v }

  function Along(v: real, length: real): real
  {
    if Clamp(v) * length < length - 1.0 then Clamp(v) * length else length - 1.0
  }

  // point.
  function PointOf(screen: Option<(real, real)>, at: (real, real), x: real, y: real): (real, real)
  {
    if screen.None? then at else (Along(x, screen.value.0), Along(y, screen.value.1))
  }

  // The pointer stays on the display, at least a point from its right and bottom edges,
  // whatever position the viewer sends; without one it stays where it was.
  lemma PointStaysInside(screen: Option<(real, real)>, at: (real, real), x: real, y: real)
    requires screen.Some? ==> screen.value.0 >= 1.0 && screen.value.1 >= 1.0
    ensures var p := PointOf(screen, at, x, y);
            if screen.None? then p == at
            else 0.0 <= p.0 <= screen.value.0 - 1.0 && 0.0 <= p.1 <= screen.value.1 - 1.0
  {
    if screen.Some? {
      Product(Clamp(x), screen.value.0);
      Product(Clamp(y), screen.value.1);
    }
  }

  lemma Product(a: real, b: real)
    requires a >= 0.0 && b >= 0.0
    ensures a * b >= 0.0
  {
  }

  // Where the pointer goes for a position.
  function Pointed(mac: Mac, c: Cg, x: real, y: real): (real, real) { PointOf(mac.screen(c.asked), c.at, x, y) }

  function MoveMouse(mac: Mac, c: Cg, x: real, y: real): Cg
    requires |c.buttons| == 3
  {
    var c1 := c.(at := Pointed(mac, c, x, y));
    var f := FlagsOf(c.mods, c.caps);
    if c.buttons[0] then Post(mac, c1, Mouse(Dragged, 0, c1.at, f))
    else if c.buttons[1] then Post(mac, c1, Mouse(Dragged, 1, c1.at, f))
    else if c.buttons[2] then Post(mac, c1, Mouse(Dragged, 2, c1.at, f))
    else Post(mac, c1, Mouse(Moved, 0, c1.at, f))
  }

  function ClickMouse(mac: Mac, c: Cg, button: nat, down: bool, x: real, y: real): Cg
    requires |c.buttons| == 3 && button < 3
  {
    var c1 := c.(at := Pointed(mac, c, x, y), buttons := c.buttons[button := down]);
    Post(mac, c1, Mouse(if down then Pressed else Lifted, button, c1.at, FlagsOf(c.mods, c.caps)))
  }

  function ClampInt32(v: int): int { Max(Min(v, 0x7FFF_FFFF), -0x8000_0000) }

  function ScrollWheel(mac: Mac, c: Cg, dx: int, dy: int): Cg
  {
    if ClampInt32(dy) == 0 && ClampInt32(-dx) == 0 then c
    else Post(mac, c, Scroll(ClampInt32(dy), ClampInt32(-dx), FlagsOf(c.mods, c.caps)))
  }

  // The given keys come up, one after the other.
  function LetGo(mac: Mac, c: Cg, order: seq<Key>): Cg
    decreases |order|
  {
    if order == [] then c
    else
      LetGo(mac, Post(mac, c.(keys := c.keys - {order[0]}), KeyEvent(order[0], false, false, FlagsOf(c.mods, c.caps))),
            order[1..])
  }

  function ReleaseHeldKeys(mac: Mac, c: Cg): Cg { LetGo(mac, c, mac.order(c.asked, c.keys)) }

  // The last Command key is coming up.
  predicate LastCommand(c: Cg, k: Key)
  {
    (k == COMMAND && RIGHT_COMMAND !in c.mods) || (k == RIGHT_COMMAND && COMMAND !in c.mods)
  }

  function PressModifier(mac: Mac, c: Cg, k: Key, down: bool): Cg
  {
    if (k in c.mods) == down then c
    else
      var c1 := if !down && LastCommand(c, k) then ReleaseHeldKeys(mac, c) else c;
      var mods := if down then c.mods + {k} else c.mods - {k};
      Post(mac, c1.(mods := mods), FlagsChanged(k, FlagsOf(mods, c1.caps)))
  }

  function PressKey(mac: Mac, c: Cg, code: Code, down: bool): Cg
  {
    if code !in mac.codes then c
    else
      var k := mac.codes[code];
      if k == CAPS_LOCK then
        if down then Post(mac, c.(caps := !c.caps), FlagsChanged(k, FlagsOf(c.mods, !c.caps))) else c
      else if k in MODIFIERS then PressModifier(mac, c, k, down)
      else
        Post(mac, c.(keys := if down then c.keys + {k} else c.keys - {k}),
             KeyEvent(k, down, down && k in c.keys, FlagsOf(c.mods, c.caps)))
  }

  // --- The handler ---

  datatype Msg =
    | Move(x: real, y: real) | MouseDown(b: int, x: real, y: real) | MouseUp(b: int, x: real, y: real)
    | Wheel(dx: int, dy: int) | KeyDown(code: Code) | KeyUp(code: Code) | Unknown

  datatype Held = Held(keys: seq<Code>, buttons: seq<bool>, last: (real, real), cg: Cg)

  function ValidButton(b: int): bool { 0 <= b < 3 }

  function Without(keys: seq<Code>, code: Code): seq<Code>
    decreases |keys|
  {
    if keys == [] then []
    else if keys[0] == code then keys[1..]
    else [keys[0]] + Without(keys[1..], code)
  }

  predicate Shaped(h: Held) { |h.buttons| == 3 && |h.cg.buttons| == 3 }

  function Handled(mac: Mac, h: Held, m: Msg): Held
    requires Shaped(h)
  {
    match m
    case Move(x, y) => h.(last := (x, y), cg := MoveMouse(mac, h.cg, x, y))
    case MouseDown(b, x, y) =>
      if !ValidButton(b) then h
      else h.(last := (x, y), buttons := h.buttons[b := true], cg := ClickMouse(mac, h.cg, b, true, x, y))
    case MouseUp(b, x, y) =>
      if !ValidButton(b) then h
      else h.(last := (x, y), buttons := h.buttons[b := false], cg := ClickMouse(mac, h.cg, b, false, x, y))
    case Wheel(dx, dy) => h.(cg := ScrollWheel(mac, h.cg, dx, dy))
    case KeyDown(code) =>
      h.(keys := if code in h.keys then h.keys else h.keys + [code], cg := PressKey(mac, h.cg, code, true))
    case KeyUp(code) => h.(keys := Without(h.keys, code), cg := PressKey(mac, h.cg, code, false))
    case Unknown => h
  }

  // Keys go up in reverse order.
  function KeysUp(mac: Mac, c: Cg, keys: seq<Code>): Cg
    decreases |keys|
  {
    if keys == [] then c
    else KeysUp(mac, PressKey(mac, c, keys[|keys| - 1], false), keys[..|keys| - 1])
  }

  // The buttons from b on go up.
  function ButtonUp(mac: Mac, h: Held, b: nat): Held
    requires Shaped(h) && b < 3
  {
    h.(buttons := h.buttons[b := false], cg := ClickMouse(mac, h.cg, b, false, h.last.0, h.last.1))
  }

  function ButtonsUp(mac: Mac, h: Held, b: nat): Held
    requires Shaped(h) && b <= 3
    decreases 3 - b
  {
    if b == 3 then h else ButtonsUp(mac, if h.buttons[b] then ButtonUp(mac, h, b) else h, b + 1)
  }

  lemma {:induction false} KeysUpShaped(mac: Mac, c: Cg, keys: seq<Code>)
    requires |c.buttons| == 3
    ensures |KeysUp(mac, c, keys).buttons| == 3 && KeysUp(mac, c, keys).buttons == c.buttons
    decreases |keys|
  {
    if keys == [] {
    } else {
      var code := keys[|keys| - 1];
      PressKeepsButtons(mac, c, code, false);
      KeysUpShaped(mac, PressKey(mac, c, code, false), keys[..|keys| - 1]);
    }
  }

  lemma {:induction false} LetGoFrame(mac: Mac, c: Cg, order: seq<Key>)
    ensures var d := LetGo(mac, c, order);
            d.buttons == c.buttons && d.mods == c.mods && d.caps == c.caps && d.at == c.at
            && d.keys == c.keys - (set k | k in order)
    decreases |order|
  {
    if order == [] {
    } else {
      LetGoFrame(mac, Post(mac, c.(keys := c.keys - {order[0]}),
                           KeyEvent(order[0], false, false, FlagsOf(c.mods, c.caps))),
                 order[1..]);
    }
  }

  lemma PressKeepsButtons(mac: Mac, c: Cg, code: Code, down: bool)
    ensures PressKey(mac, c, code, down).buttons == c.buttons
  {
    LetGoFrame(mac, c, mac.order(c.asked, c.keys));
  }

  function Released(mac: Mac, h: Held): Held
    requires Shaped(h)
  {
    KeysUpShaped(mac, h.cg, h.keys);
    ButtonsUp(mac, h.(keys := [], cg := KeysUp(mac, h.cg, h.keys)), 0)
  }

  // A frame of the input channel, with whether a prompt is up; or the channel closing.
  datatype Frame = Frame(busy: bool, m: Msg) | Closing

  function Applied(mac: Mac, h: Held, f: Frame): Held
    requires Shaped(h)
  {
    if f.Closing? || f.busy then Released(mac, h) else Handled(mac, h, f.m)
  }

  // --- The two layers agree ---

  function Members<T>(s: seq<T>): set<T> { set x | x in s }

  ghost predicate Unique<T>(s: seq<T>) { forall i, j :: 0 <= i < j < |s| ==> s[i] != s[j] }

  function KeysOf(mac: Mac, codes: set<Code>): set<Key> { set c | c in codes && c in mac.codes :: mac.codes[c] }

  function ModsOf(mac: Mac, codes: set<Code>): set<Key> { KeysOf(mac, codes) * MODIFIERS }

  function PlainOf(mac: Mac, codes: set<Code>): set<Key> { KeysOf(mac, codes) - MODIFIERS - {CAPS_LOCK} }

  // The injector holds exactly the modifiers of the codes held, and of the other
  // keys no more than theirs.
  ghost predicate Holds(mac: Mac, codes: set<Code>, c: Cg)
  {
    c.mods == ModsOf(mac, codes) && c.keys <= PlainOf(mac, codes)
  }

  lemma KeysOfMore(mac: Mac, codes: set<Code>, code: Code)
    ensures KeysOf(mac, codes + {code}) == KeysOf(mac, codes) + (if code in mac.codes then {mac.codes[code]} else {})
  {
  }

  lemma KeysOfLess(mac: Mac, codes: set<Code>, code: Code)
    requires Sound(mac)
    ensures KeysOf(mac, codes - {code}) == KeysOf(mac, codes) - (if code in mac.codes then {mac.codes[code]} else {})
  {
    forall k | k in KeysOf(mac, codes) && code in mac.codes && k != mac.codes[code]
      ensures k in KeysOf(mac, codes - {code})
    {
      var a :| a in codes && a in mac.codes && mac.codes[a] == k;
      assert a in codes - {code};
    }
  }

  lemma PressHolds(mac: Mac, codes: set<Code>, c: Cg, code: Code)
    requires Holds(mac, codes, c)
    ensures Holds(mac, codes + {code}, PressKey(mac, c, code, true))
  {
    KeysOfMore(mac, codes, code);
  }

  lemma ReleaseHolds(mac: Mac, codes: set<Code>, c: Cg, code: Code)
    requires Sound(mac) && Holds(mac, codes, c)
    ensures Holds(mac, codes - {code}, PressKey(mac, c, code, false))
  {
    KeysOfLess(mac, codes, code);
    LetGoFrame(mac, c, mac.order(c.asked, c.keys));
  }

  lemma {:induction false} WithoutIs(keys: seq<Code>, code: Code)
    requires Unique(keys)
    ensures Unique(Without(keys, code)) && Members(Without(keys, code)) == Members(keys) - {code}
  {
    if keys == [] {
    } else {
      WithoutIs(keys[1..], code);
      assert Members(keys) == {keys[0]} + Members(keys[1..]);
      if keys[0] != code {
        assert Members(Without(keys, code)) == {keys[0]} + Members(Without(keys[1..], code));
        assert keys[0] !in Members(Without(keys[1..], code));
      }
    }
  }

  lemma {:induction false} KeysUpHolds(mac: Mac, c: Cg, keys: seq<Code>)
    requires Sound(mac) && Unique(keys) && Holds(mac, Members(keys), c)
    ensures KeysUp(mac, c, keys).mods == {} && KeysUp(mac, c, keys).keys == {}
    decreases |keys|
  {
    if keys != [] {
      var last := |keys| - 1;
      ReleaseHolds(mac, Members(keys), c, keys[last]);
      assert Members(keys) - {keys[last]} == Members(keys[..last]);
      KeysUpHolds(mac, PressKey(mac, c, keys[last], false), keys[..last]);
    } else {
      assert Members(keys) == {};
    }
  }

  ghost predicate Agree(mac: Mac, h: Held)
  {
    && Shaped(h) && Unique(h.keys) && Holds(mac, Members(h.keys), h.cg) && h.buttons == h.cg.buttons
  }

  lemma ClickFrame(mac: Mac, c: Cg, button: nat, down: bool, x: real, y: real)
    requires |c.buttons| == 3 && button < 3
    ensures var d := ClickMouse(mac, c, button, down, x, y);
            d.mods == c.mods && d.keys == c.keys && d.caps == c.caps && d.buttons == c.buttons[button := down]
  {
  }

  lemma HandledAgrees(mac: Mac, h: Held, m: Msg)
    requires Sound(mac) && Agree(mac, h)
    ensures Agree(mac, Handled(mac, h, m))
  {
    match m
    case KeyDown(code) =>
      PressHolds(mac, Members(h.keys), h.cg, code);
      PressKeepsButtons(mac, h.cg, code, true);
      assert Members(Handled(mac, h, m).keys) == Members(h.keys) + {code};
    case KeyUp(code) =>
      ReleaseHolds(mac, Members(h.keys), h.cg, code);
      PressKeepsButtons(mac, h.cg, code, false);
      WithoutIs(h.keys, code);
    case _ =>
  }

  lemma {:induction false} ButtonsUpReleases(mac: Mac, h: Held, b: nat)
    requires Shaped(h) && b <= 3 && h.buttons == h.cg.buttons && forall i :: 0 <= i < b ==> !h.buttons[i]
    ensures var r := ButtonsUp(mac, h, b);
            && r.buttons == r.cg.buttons == NO_BUTTONS && r.keys == h.keys
            && r.cg.mods == h.cg.mods && r.cg.keys == h.cg.keys && r.cg.caps == h.cg.caps
    decreases 3 - b
  {
    if b == 3 {
    } else {
      ClickFrame(mac, h.cg, b, false, h.last.0, h.last.1);
      ButtonsUpReleases(mac, if h.buttons[b] then ButtonUp(mac, h, b) else h, b + 1);
    }
  }

  // Nothing is held, by the handler or by the injector.
  predicate NothingHeld(h: Held)
  {
    h.keys == [] && h.buttons == NO_BUTTONS && h.cg.mods == {} && h.cg.keys == {} && h.cg.buttons == NO_BUTTONS
  }

  lemma ReleasedHoldsNothing(mac: Mac, h: Held)
    requires Sound(mac) && Agree(mac, h)
    ensures NothingHeld(Released(mac, h)) && Agree(mac, Released(mac, h))
  {
    KeysUpHolds(mac, h.cg, h.keys);
    KeysUpShaped(mac, h.cg, h.keys);
    ButtonsUpReleases(mac, h.(keys := [], cg := KeysUp(mac, h.cg, h.keys)), 0);
  }

  // --- What the Mac sees ---

  // What is down, to whoever reads the events posted.
  datatype Seen = Seen(mods: set<Key>, caps: bool, keys: set<Key>, buttons: seq<bool>)

  const UNSEEN: Seen := Seen({}, false, {}, NO_BUTTONS)

  // The modifiers that flags state, the left and the right key told apart.
  function ModsIn(flags: set<Bit>): set<Key> { set k | k in MODIFIERS && ModifierFlags(k) <= flags }

  function See(s: Seen, e: Event): Seen
  {
    match e
    case FlagsChanged(_, flags) => s.(mods := ModsIn(flags), caps := AlphaShift in flags)
    case KeyEvent(k, down, _, _) => s.(keys := if down then s.keys + {k} else s.keys - {k})
    case Mouse(kind, b, _, _) =>
      if 0 <= b < |s.buttons| && (kind.Pressed? || kind.Lifted?) then s.(buttons := s.buttons[b := kind.Pressed?])
      else s
    case Scroll(_, _, _) => s
  }

  function SeenAfter(out: seq<Event>): Seen
  {
    if out == [] then UNSEEN else See(SeenAfter(out[..|out| - 1]), out[|out| - 1])
  }

  // An event says exactly what is held once it has happened; a key that is down
  // again is marked as a repeat, a drag is of the first button down, and no key and no
  // modifier goes twice the same way.
  ghost predicate Right(s: Seen, e: Event)
  {
    var t := See(s, e);
    && e.flags == FlagsOf(t.mods, t.caps)
    && (e.KeyEvent? ==> e.again == (e.down && e.key in s.keys))
    && (e.FlagsChanged? ==> t.mods != s.mods || t.caps != s.caps)
    && (e.Mouse? && e.kind.Dragged? ==> 0 <= e.button < |s.buttons| && s.buttons[e.button])
    && (e.Mouse? && e.kind.Moved? ==> forall b :: 0 <= b < |s.buttons| ==> !s.buttons[b])
  }

  ghost predicate AllRight(out: seq<Event>)
  {
    forall i {:trigger out[i]} :: 0 <= i < |out| ==> Right(SeenAfter(out[..i]), out[i])
  }

  // What was posted shows exactly what the injector holds.
  ghost predicate Shown(c: Cg)
  {
    && |c.buttons| == 3 && c.mods <= MODIFIERS && AllRight(c.out)
    && SeenAfter(c.out) == Seen(c.mods, c.caps, c.keys, c.buttons)
  }

  // Each modifier has a bit that no other has.
  function OwnBit(k: Key): Bit
    requires k in MODIFIERS
  {
    match k
    case 0x38 => LeftShift
    case 0x3C => RightShift
    case 0x3B => LeftControl
    case 0x3E => RightControl
    case 0x3A => LeftOption
    case 0x3D => RightOption
    case 0x37 => LeftCommand
    case 0x36 => RightCommand
    case _ => SecondaryFn
  }

  lemma OwnBitIsOwn(k: Key, m: Key)
    requires k in MODIFIERS && m in MODIFIERS && OwnBit(k) in ModifierFlags(m)
    ensures k == m
  {
  }

  // The flags of an event tell exactly which modifiers are held, and Caps Lock.
  lemma FlagsIdentify(mods: set<Key>, caps: bool)
    requires mods <= MODIFIERS
    ensures ModsIn(FlagsOf(mods, caps)) == mods && (AlphaShift in FlagsOf(mods, caps) <==> caps)
  {
    forall k | k in ModsIn(FlagsOf(mods, caps))
      ensures k in mods
    {
      assert OwnBit(k) in ModifierFlags(k);
      var m :| m in mods && OwnBit(k) in ModifierFlags(m);
      OwnBitIsOwn(k, m);
    }
  }

  ghost predicate MayAlways(mac: Mac) { forall n: nat :: mac.may(n) }

  // One event more, that is right.
  lemma PostShown(mac: Mac, c: Cg, d: Cg, e: Event)
    requires MayAlways(mac) && Shown(c) && d.out == c.out && |d.buttons| == 3 && d.mods <= MODIFIERS
    requires Right(SeenAfter(c.out), e) && See(SeenAfter(c.out), e) == Seen(d.mods, d.caps, d.keys, d.buttons)
    ensures Shown(Post(mac, d, e))
  {
    var out := c.out + [e];
    assert out[..|c.out|] == c.out;
    forall i | 0 <= i < |out|
      ensures Right(SeenAfter(out[..i]), out[i])
    {
      if i < |c.out| {
        assert out[..i] == c.out[..i] && out[i] == c.out[i];
      }
    }
  }

  lemma {:induction false} LetGoShown(mac: Mac, c: Cg, order: seq<Key>)
    requires MayAlways(mac) && Shown(c)
    ensures Shown(LetGo(mac, c, order))
    decreases |order|
  {
    if order == [] {
    } else {
      var d := c.(keys := c.keys - {order[0]});
      var e := KeyEvent(order[0], false, false, FlagsOf(c.mods, c.caps));
      PostShown(mac, c, d, e);
      LetGoShown(mac, Post(mac, d, e), order[1..]);
    }
  }

  lemma ModifierShown(mac: Mac, c: Cg, k: Key, down: bool)
    requires MayAlways(mac) && Shown(c) && k in MODIFIERS
    ensures Shown(PressModifier(mac, c, k, down))
  {
    if (k in c.mods) != down {
      if !down && LastCommand(c, k) {
        LetGoShown(mac, c, mac.order(c.asked, c.keys));
        LetGoFrame(mac, c, mac.order(c.asked, c.keys));
        ModifierSet(mac, ReleaseHeldKeys(mac, c), k, c.mods - {k});
      } else {
        ModifierSet(mac, c, k, if down then c.mods + {k} else c.mods - {k});
      }
    }
  }

  lemma ModifierSet(mac: Mac, c: Cg, k: Key, mods: set<Key>)
    requires MayAlways(mac) && Shown(c) && mods <= MODIFIERS && mods != c.mods
    ensures Shown(Post(mac, c.(mods := mods), FlagsChanged(k, FlagsOf(mods, c.caps))))
  {
    FlagsIdentify(mods, c.caps);
    PostShown(mac, c, c.(mods := mods), FlagsChanged(k, FlagsOf(mods, c.caps)));
  }

  lemma PressShown(mac: Mac, c: Cg, code: Code, down: bool)
    requires MayAlways(mac) && Shown(c)
    ensures Shown(PressKey(mac, c, code, down))
  {
    if code in mac.codes {
      var k := mac.codes[code];
      if k == CAPS_LOCK {
        FlagsIdentify(c.mods, !c.caps);
        if down {
          PostShown(mac, c, c.(caps := !c.caps), FlagsChanged(k, FlagsOf(c.mods, !c.caps)));
        }
      } else if k in MODIFIERS {
        ModifierShown(mac, c, k, down);
      } else {
        PostShown(mac, c, c.(keys := if down then c.keys + {k} else c.keys - {k}),
                  KeyEvent(k, down, down && k in c.keys, FlagsOf(c.mods, c.caps)));
      }
    }
  }

  lemma MouseShown(mac: Mac, c: Cg, x: real, y: real)
    requires MayAlways(mac) && Shown(c)
    ensures Shown(MoveMouse(mac, c, x, y))
  {
    var d, f := c.(at := Pointed(mac, c, x, y)), FlagsOf(c.mods, c.caps);
    if c.buttons[0] {
      PostShown(mac, c, d, Mouse(Dragged, 0, d.at, f));
    } else if c.buttons[1] {
      PostShown(mac, c, d, Mouse(Dragged, 1, d.at, f));
    } else if c.buttons[2] {
      PostShown(mac, c, d, Mouse(Dragged, 2, d.at, f));
    } else {
      PostShown(mac, c, d, Mouse(Moved, 0, d.at, f));
    }
  }

  lemma ClickShown(mac: Mac, c: Cg, button: nat, down: bool, x: real, y: real)
    requires MayAlways(mac) && Shown(c) && button < 3
    ensures Shown(ClickMouse(mac, c, button, down, x, y))
  {
    var d := c.(at := Pointed(mac, c, x, y), buttons := c.buttons[button := down]);
    PostShown(mac, c, d, Mouse(if down then Pressed else Lifted, button, d.at, FlagsOf(c.mods, c.caps)));
  }

  lemma WheelShown(mac: Mac, c: Cg, dx: int, dy: int)
    requires MayAlways(mac) && Shown(c)
    ensures Shown(ScrollWheel(mac, c, dx, dy))
  {
    PostShown(mac, c, c, Scroll(ClampInt32(dy), ClampInt32(-dx), FlagsOf(c.mods, c.caps)));
  }

  lemma HandledShown(mac: Mac, h: Held, m: Msg)
    requires MayAlways(mac) && Shaped(h) && Shown(h.cg)
    ensures Shown(Handled(mac, h, m).cg) && Shaped(Handled(mac, h, m))
  {
    match m
    case Move(x, y) => MouseShown(mac, h.cg, x, y);
    case MouseDown(b, x, y) => if ValidButton(b) { ClickShown(mac, h.cg, b, true, x, y); }
    case MouseUp(b, x, y) => if ValidButton(b) { ClickShown(mac, h.cg, b, false, x, y); }
    case Wheel(dx, dy) => WheelShown(mac, h.cg, dx, dy);
    case KeyDown(code) => PressShown(mac, h.cg, code, true);
    case KeyUp(code) => PressShown(mac, h.cg, code, false);
    case Unknown =>
  }

  lemma {:induction false} KeysUpShown(mac: Mac, c: Cg, keys: seq<Code>)
    requires MayAlways(mac) && Shown(c)
    ensures Shown(KeysUp(mac, c, keys))
    decreases |keys|
  {
    if keys == [] {
    } else {
      PressShown(mac, c, keys[|keys| - 1], false);
      KeysUpShown(mac, PressKey(mac, c, keys[|keys| - 1], false), keys[..|keys| - 1]);
    }
  }

  lemma {:induction false} ButtonsUpShown(mac: Mac, h: Held, b: nat)
    requires MayAlways(mac) && Shaped(h) && b <= 3 && Shown(h.cg)
    ensures Shown(ButtonsUp(mac, h, b).cg) && Shaped(ButtonsUp(mac, h, b))
    decreases 3 - b
  {
    if b == 3 {
    } else {
      ClickShown(mac, h.cg, b, false, h.last.0, h.last.1);
      ButtonsUpShown(mac, if h.buttons[b] then ButtonUp(mac, h, b) else h, b + 1);
    }
  }

  lemma ReleasedShown(mac: Mac, h: Held)
    requires MayAlways(mac) && Shaped(h) && Shown(h.cg)
    ensures Shown(Released(mac, h).cg) && Shaped(Released(mac, h))
  {
    KeysUpShown(mac, h.cg, h.keys);
    KeysUpShaped(mac, h.cg, h.keys);
    ButtonsUpShown(mac, h.(keys := [], cg := KeysUp(mac, h.cg, h.keys)), 0);
  }

  // --- Every run ---

  const START: Held := Held([], NO_BUTTONS, (0.0, 0.0), CG_START)

  function Stepper(mac: Mac): (Held, Frame) -> Held
  {
    (h: Held, f: Frame) => if Shaped(h) then Applied(mac, h, f) else h
  }

  function After(mac: Mac, frames: seq<Frame>): Held { Run(Stepper(mac), START, frames) }

  // Whatever arrives and whenever prompts come up: the list of held keys has no key
  // twice, and the injector holds exactly its modifiers and no more than its other
  // keys, and the same buttons.
  lemma LayersAgree(mac: Mac, frames: seq<Frame>)
    requires Sound(mac)
    ensures var h := After(mac, frames);
            && Unique(h.keys) && h.buttons == h.cg.buttons
            && h.cg.mods == ModsOf(mac, Members(h.keys)) && h.cg.keys <= PlainOf(mac, Members(h.keys))
  {
    RunAgrees(mac, frames);
  }

  lemma RunAgrees(mac: Mac, frames: seq<Frame>)
    requires Sound(mac)
    ensures Agree(mac, After(mac, frames))
  {
    var inv := (h: Held) => Agree(mac, h);
    forall h, f | inv(h)
      ensures inv(Stepper(mac)(h, f))
    {
      if f.Closing? || f.busy {
        ReleasedHoldsNothing(mac, h);
      } else {
        HandledAgrees(mac, h, f.m);
      }
    }
    RunKeeps(Stepper(mac), START, frames, inv, _ => true);
  }

  // A frame that comes while a prompt is up, and the closing of the channel, leave
  // nothing held in either layer.
  lemma NothingStaysHeld(mac: Mac, frames: seq<Frame>, f: Frame)
    requires Sound(mac) && (f.Closing? || f.busy)
    ensures NothingHeld(After(mac, frames + [f]))
  {
    RunAgrees(mac, frames);
    ReleasedHoldsNothing(mac, After(mac, frames));
    RunOfTwoParts(Stepper(mac), START, frames, [f]);
    assert [f][1..] == [];
    assert Run(Stepper(mac), After(mac, frames), [f]) == Run(Stepper(mac), Released(mac, After(mac, frames)), []);
  }

  // While posting stays allowed, whoever reads the events knows exactly what the
  // injector holds, and each event's flags are the modifiers held and Caps Lock.
  lemma EventsTellTheTruth(mac: Mac, frames: seq<Frame>)
    requires MayAlways(mac)
    ensures var c := After(mac, frames).cg;
            && AllRight(c.out) && SeenAfter(c.out) == Seen(c.mods, c.caps, c.keys, c.buttons)
  {
    RunShown(mac, frames);
  }

  lemma RunShown(mac: Mac, frames: seq<Frame>)
    requires MayAlways(mac)
    ensures Shaped(After(mac, frames)) && Shown(After(mac, frames).cg)
  {
    var inv := (h: Held) => Shaped(h) && Shown(h.cg);
    forall h, f | inv(h)
      ensures inv(Stepper(mac)(h, f))
    {
      AppliedShown(mac, h, f);
    }
    RunKeeps(Stepper(mac), START, frames, inv, _ => true);
  }

  lemma AppliedShown(mac: Mac, h: Held, f: Frame)
    requires MayAlways(mac) && Shaped(h) && Shown(h.cg)
    ensures Shaped(Applied(mac, h, f)) && Shown(Applied(mac, h, f).cg)
  {
    if f.Closing? || f.busy {
      ReleasedShown(mac, h);
      assert Applied(mac, h, f) == Released(mac, h);
    } else {
      HandledShown(mac, h, f.m);
      assert Applied(mac, h, f) == Handled(mac, h, f.m);
    }
  }

  // So once the viewer is gone, nothing stays pressed on the Mac.
  lemma NothingStaysPressed(mac: Mac, frames: seq<Frame>)
    requires Sound(mac) && MayAlways(mac)
    ensures var s := SeenAfter(After(mac, frames + [Closing]).cg.out);
            s.mods == {} && s.keys == {} && s.buttons == NO_BUTTONS
  {
    NothingStaysHeld(mac, frames, Closing);
    EventsTellTheTruth(mac, frames + [Closing]);
  }

  // When the last Command key comes up, every other key comes up with it.
  lemma LastCommandLetsGo(mac: Mac, c: Cg, code: Code)
    requires Sound(mac) && code in mac.codes && mac.codes[code] in {COMMAND, RIGHT_COMMAND}
    requires c.mods * {COMMAND, RIGHT_COMMAND} == {mac.codes[code]}
    ensures var d := PressKey(mac, c, code, false);
            d.keys == {} && d.mods == c.mods - {mac.codes[code]} && d.mods !! {COMMAND, RIGHT_COMMAND}
  {
    var k := mac.codes[code];
    assert k in c.mods * {COMMAND, RIGHT_COMMAND};
    var other := if k == COMMAND then RIGHT_COMMAND else COMMAND;
    assert other !in c.mods * {COMMAND, RIGHT_COMMAND};
    assert Enumerates(mac.order(c.asked, c.keys), c.keys);
    LetGoFrame(mac, c, mac.order(c.asked, c.keys));
  }

  // --- The gate lets no press through ---

  predicate IsRelease(e: Event)
  {
    match e
    case Mouse(kind, _, _, _) => kind.Lifted?
    case KeyEvent(_, down, _, _) => !down
    case FlagsChanged(k, flags) => !(ModifierFlags(k) <= flags)
    case Scroll(_, _, _) => false
  }

  ghost predicate OnlyReleases(a: seq<Event>, b: seq<Event>)
  {
    a <= b && forall i :: |a| <= i < |b| ==> IsRelease(b[i])
  }

  lemma {:induction false} LetGoReleases(mac: Mac, c: Cg, order: seq<Key>)
    ensures OnlyReleases(c.out, LetGo(mac, c, order).out)
    decreases |order|
  {
    if order == [] {
    } else {
      LetGoReleases(mac, Post(mac, c.(keys := c.keys - {order[0]}),
                              KeyEvent(order[0], false, false, FlagsOf(c.mods, c.caps))),
                    order[1..]);
    }
  }

  lemma PressReleases(mac: Mac, c: Cg, code: Code)
    requires c.mods <= MODIFIERS
    ensures var d := PressKey(mac, c, code, false); d.mods <= MODIFIERS && OnlyReleases(c.out, d.out)
  {
    LetGoReleases(mac, c, mac.order(c.asked, c.keys));
    LetGoFrame(mac, c, mac.order(c.asked, c.keys));
    if code in mac.codes && mac.codes[code] in MODIFIERS {
      var k := mac.codes[code];
      FlagsIdentify(c.mods - {k}, c.caps);
      assert k !in ModsIn(FlagsOf(c.mods - {k}, c.caps));
    }
  }

  lemma {:induction false} KeysUpReleases(mac: Mac, c: Cg, keys: seq<Code>)
    requires c.mods <= MODIFIERS
    ensures OnlyReleases(c.out, KeysUp(mac, c, keys).out)
    decreases |keys|
  {
    if keys == [] {
    } else {
      PressReleases(mac, c, keys[|keys| - 1]);
      KeysUpReleases(mac, PressKey(mac, c, keys[|keys| - 1], false), keys[..|keys| - 1]);
    }
  }

  lemma {:induction false} ButtonsUpReleasesOnly(mac: Mac, h: Held, b: nat)
    requires Shaped(h) && b <= 3
    ensures OnlyReleases(h.cg.out, ButtonsUp(mac, h, b).cg.out)
    decreases 3 - b
  {
    if b == 3 {
    } else {
      ButtonsUpReleasesOnly(mac, if h.buttons[b] then
                                   h.(buttons := h.buttons[b := false],
                                      cg := ClickMouse(mac, h.cg, b, false, h.last.0, h.last.1))
                                 else h, b + 1);
    }
  }

  // While a prompt is up, a frame, whatever it says, posts nothing but releases.
  lemma GatePostsOnlyReleases(mac: Mac, frames: seq<Frame>, m: Msg)
    requires Sound(mac)
    ensures var h := After(mac, frames);
            Shaped(h) && OnlyReleases(h.cg.out, Applied(mac, h, Frame(true, m)).cg.out)
  {
    RunAgrees(mac, frames);
    var h := After(mac, frames);
    KeysUpReleases(mac, h.cg, h.keys);
    KeysUpShaped(mac, h.cg, h.keys);
    ButtonsUpReleasesOnly(mac, h.(keys := [], cg := KeysUp(mac, h.cg, h.keys)), 0);
  }
}
