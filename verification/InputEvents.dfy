/** Which events the messages of one viewer become, and where they land
    (host-agent/internal/input/handler.go, host-agent/internal/input/inject_darwin.go,
    host-agent/internal/session/inputgate.go). */
module InputEvents {
  import opened Prelude
  import opened Runs
  import opened Input

  // --- Where a position is ---

  // A position times a length, but no less than 0 and no more than one point less than
  // the length.
  function Place(v: real, length: real): real
  {
    if v <= 0.0 then 0.0 else if v * length <= length - 1.0 then v * length else length - 1.0
  }

  lemma AlongIsPlace(v: real, length: real)
    requires length >= 1.0
    ensures Along(v, length) == Place(v, length)
  {
    if v > 1.0 {
      Longer(v, length);
    }
  }

  lemma Longer(v: real, length: real)
    requires v > 1.0 && length > 0.0
    ensures v * length > length
  {
    assert (v - 1.0) * length > 0.0;
  }

  ghost predicate IsSize(size: (real, real)) { size.0 >= 1.0 && size.1 >= 1.0 }

  // The first coordinate is x along the width, the second y along the height; without
  // a display the pointer stays where it was.
  lemma PointIsPlace(screen: Option<(real, real)>, at: (real, real), x: real, y: real)
    requires screen.Some? ==> IsSize(screen.value)
    ensures screen.None? ==> PointOf(screen, at, x, y) == at
    ensures screen.Some? ==>
              PointOf(screen, at, x, y) == (Place(x, screen.value.0), Place(y, screen.value.1))
  {
    if screen.Some? {
      AlongIsPlace(x, screen.value.0);
      AlongIsPlace(y, screen.value.1);
    }
  }

  // A main display of one size throughout.
  ghost predicate Displays(mac: Mac, size: (real, real))
  {
    IsSize(size) && forall n: nat :: mac.screen(n) == Some(size)
  }

  function PlaceOf(size: (real, real), p: (real, real)): (real, real) { (Place(p.0, size.0), Place(p.1, size.1)) }

  // --- What an event answers ---

  // The frame's message is applied: it is one, and no prompt is up.
  predicate Applies(f: Frame) { f.Frame? && !f.busy }

  // It says where the pointer is.
  predicate Points(f: Frame)
  {
    && Applies(f)
    && match f.m
       case Move(_, _) => true
       case MouseDown(b, _, _) => 0 <= b <= 2
       case MouseUp(b, _, _) => 0 <= b <= 2
       case _ => false
  }

  // Where the viewer's pointer was said to be last.
  function LastPointed(frames: seq<Frame>): (real, real)
  {
    if frames == [] then (0.0, 0.0)
    else if Points(frames[|frames| - 1]) then (frames[|frames| - 1].m.x, frames[|frames| - 1].m.y)
    else LastPointed(frames[..|frames| - 1])
  }

  // An event posted for a frame: a mouse event is where the pointer was said to be last;
  // a press is of the button the message presses, a lift of the one it lifts or of one
  // held when all is released; a scroll is by the message's deltas, up and to the left
  // positive; and a key that goes down, or a modifier, is that of the message.
  ghost predicate Answers(mac: Mac, size: (real, real), f: Frame, last: (real, real), e: Event)
  {
    match e
    case Mouse(kind, b, at, _) =>
      && at == PlaceOf(size, last)
      && (match kind
          case Moved => Applies(f) && f.m.Move?
          case Dragged => Applies(f) && f.m.Move?
          case Pressed => Applies(f) && f.m.MouseDown? && f.m.b == b
          case Lifted => Applies(f) ==> f.m.MouseUp? && f.m.b == b)
    case Scroll(vertical, horizontal, _) =>
      && Applies(f) && f.m.Wheel?
      && vertical == Min(Max(f.m.dy, -0x8000_0000), 0x7FFF_FFFF)
      && horizontal == Min(Max(-f.m.dx, -0x8000_0000), 0x7FFF_FFFF)
    case KeyEvent(k, down, _, _) =>
      if Applies(f) then
        (f.m.KeyDown? && down && f.m.code in mac.codes && mac.codes[f.m.code] == k) || (f.m.KeyUp? && !down)
      else !down
    case FlagsChanged(k, _) =>
      Applies(f) ==> (f.m.KeyDown? || f.m.KeyUp?) && f.m.code in mac.codes && mac.codes[f.m.code] == k
  }

  // b is a, and then events of which each is as told.
  ghost predicate Adds(a: seq<Event>, b: seq<Event>, told: Event -> bool)
  {
    a <= b && forall i {:trigger b[i]} :: |a| <= i < |b| ==> told(b[i])
  }

  lemma AddsMore(a: seq<Event>, b: seq<Event>, c: seq<Event>, told: Event -> bool)
    requires Adds(a, b, told) && Adds(b, c, told)
    ensures Adds(a, c, told)
  {
    forall i | |a| <= i < |c|
      ensures told(c[i])
    {
      if i < |b| {
        assert c[i] == b[i];
      }
    }
  }

  lemma PostAdds(mac: Mac, c: Cg, d: Cg, e: Event, told: Event -> bool)
    requires d.out == c.out && told(e)
    ensures Adds(c.out, Post(mac, d, e).out, told)
  {
  }

  ghost predicate LiftsToldOf(told: Event -> bool)
  {
    forall k, flags {:trigger KeyEvent(k, false, false, flags)} :: told(KeyEvent(k, false, false, flags))
  }

  lemma {:induction false} LetGoAdds(mac: Mac, c: Cg, order: seq<Key>, told: Event -> bool)
    requires LiftsToldOf(told)
    ensures Adds(c.out, LetGo(mac, c, order).out, told)
    decreases |order|
  {
    if order == [] {
    } else {
      var d := c.(keys := c.keys - {order[0]});
      var e := KeyEvent(order[0], false, false, FlagsOf(c.mods, c.caps));
      PostAdds(mac, c, d, e, told);
      LetGoAdds(mac, Post(mac, d, e), order[1..], told);
      AddsMore(c.out, Post(mac, d, e).out, LetGo(mac, c, order).out, told);
    }
  }

  // The keys and modifiers a key code may change are told.
  ghost predicate KeysTold(mac: Mac, code: Code, down: bool, told: Event -> bool)
  {
    && (!down ==> LiftsToldOf(told))
    && (code in mac.codes ==>
          && (forall again, flags {:trigger KeyEvent(mac.codes[code], down, again, flags)} ::
                told(KeyEvent(mac.codes[code], down, again, flags)))
          && (forall flags {:trigger FlagsChanged(mac.codes[code], flags)} ::
                told(FlagsChanged(mac.codes[code], flags))))
  }

  lemma PressAdds(mac: Mac, c: Cg, code: Code, down: bool, told: Event -> bool)
    requires KeysTold(mac, code, down, told)
    ensures Adds(c.out, PressKey(mac, c, code, down).out, told)
  {
    if code in mac.codes && mac.codes[code] in MODIFIERS && mac.codes[code] != CAPS_LOCK {
      ModifierAdds(mac, c, mac.codes[code], down, told);
    }
  }

  lemma ModifierAdds(mac: Mac, c: Cg, k: Key, down: bool, told: Event -> bool)
    requires !down ==> LiftsToldOf(told)
    requires forall flags {:trigger FlagsChanged(k, flags)} :: told(FlagsChanged(k, flags))
    ensures Adds(c.out, PressModifier(mac, c, k, down).out, told)
  {
    if (k in c.mods) != down {
      var c1 := if !down && LastCommand(c, k) then ReleaseHeldKeys(mac, c) else c;
      if !down {
        LetGoAdds(mac, c, mac.order(c.asked, c.keys), told);
      }
      var mods := if down then c.mods + {k} else c.mods - {k};
      PostAdds(mac, c1, c1.(mods := mods), FlagsChanged(k, FlagsOf(mods, c1.caps)), told);
      AddsMore(c.out, c1.out, PressModifier(mac, c, k, down).out, told);
    }
  }

  // Any key and any modifier may come up.
  ghost predicate ReleasesTold(told: Event -> bool)
  {
    && (forall k, again, flags {:trigger KeyEvent(k, false, again, flags)} :: told(KeyEvent(k, false, again, flags)))
    && (forall k, flags {:trigger FlagsChanged(k, flags)} :: told(FlagsChanged(k, flags)))
  }

  lemma {:induction false} KeysUpAdds(mac: Mac, c: Cg, keys: seq<Code>, told: Event -> bool)
    requires ReleasesTold(told)
    ensures Adds(c.out, KeysUp(mac, c, keys).out, told)
    decreases |keys|
  {
    if keys == [] {
    } else {
      var code := keys[|keys| - 1];
      PressAdds(mac, c, code, false, told);
      var d := PressKey(mac, c, code, false);
      KeysUpAdds(mac, d, keys[..|keys| - 1], told);
      AddsMore(c.out, d.out, KeysUp(mac, c, keys).out, told);
    }
  }

  lemma {:induction false} ButtonsUpAdds(mac: Mac, h: Held, b: nat, at: (real, real), told: Event -> bool)
    requires Shaped(h) && b <= 3 && (forall c: Cg :: Pointed(mac, c, h.last.0, h.last.1) == at)
    requires forall button, flags {:trigger Mouse(Lifted, button, at, flags)} :: told(Mouse(Lifted, button, at, flags))
    ensures Adds(h.cg.out, ButtonsUp(mac, h, b).cg.out, told) && ButtonsUp(mac, h, b).last == h.last
    decreases 3 - b
  {
    if b == 3 {
    } else {
      var g := if h.buttons[b] then ButtonUp(mac, h, b) else h;
      assert Pointed(mac, h.cg, h.last.0, h.last.1) == at;
      ButtonsUpAdds(mac, g, b + 1, at, told);
      AddsMore(h.cg.out, g.cg.out, ButtonsUp(mac, h, b).cg.out, told);
    }
  }

  lemma AlwaysPointed(mac: Mac, size: (real, real), p: (real, real))
    requires Displays(mac, size)
    ensures forall c: Cg {:trigger Pointed(mac, c, p.0, p.1)} :: Pointed(mac, c, p.0, p.1) == PlaceOf(size, p)
  {
    forall c: Cg
      ensures Pointed(mac, c, p.0, p.1) == PlaceOf(size, p)
    {
      PointIsPlace(mac.screen(c.asked), c.at, p.0, p.1);
    }
  }

  lemma ReleasedAnswers(mac: Mac, size: (real, real), h: Held, f: Frame)
    requires Displays(mac, size) && Shaped(h) && !Applies(f)
    ensures Adds(h.cg.out, Released(mac, h).cg.out, e => Answers(mac, size, f, h.last, e))
    ensures Released(mac, h).last == h.last
  {
    var told := e => Answers(mac, size, f, h.last, e);
    KeysUpAdds(mac, h.cg, h.keys, told);
    KeysUpShaped(mac, h.cg, h.keys);
    AlwaysPointed(mac, size, h.last);
    var g := h.(keys := [], cg := KeysUp(mac, h.cg, h.keys));
    ButtonsUpAdds(mac, g, 0, PlaceOf(size, h.last), told);
    AddsMore(h.cg.out, g.cg.out, Released(mac, h).cg.out, told);
  }

  lemma HandledAnswers(mac: Mac, size: (real, real), h: Held, f: Frame)
    requires Displays(mac, size) && Shaped(h) && Applies(f)
    ensures var g := Handled(mac, h, f.m);
            && g.last == (if Points(f) then (f.m.x, f.m.y) else h.last)
            && Adds(h.cg.out, g.cg.out, e => Answers(mac, size, f, g.last, e))
  {
    var g := Handled(mac, h, f.m);
    var told := e => Answers(mac, size, f, g.last, e);
    AlwaysPointed(mac, size, g.last);
    match f.m
    case Move(x, y) => assert Pointed(mac, h.cg, x, y) == PlaceOf(size, g.last);
    case MouseDown(b, x, y) => assert Points(f) ==> Pointed(mac, h.cg, x, y) == PlaceOf(size, g.last);
    case MouseUp(b, x, y) => assert Points(f) ==> Pointed(mac, h.cg, x, y) == PlaceOf(size, g.last);
    case KeyDown(code) => PressAdds(mac, h.cg, code, true, told);
    case KeyUp(code) => PressAdds(mac, h.cg, code, false, told);
    case _ =>
  }

  lemma OneMoreFrame(mac: Mac, frames: seq<Frame>, f: Frame)
    requires Shaped(After(mac, frames))
    ensures After(mac, frames + [f]) == Applied(mac, After(mac, frames), f)
  {
    RunOfTwoParts(Stepper(mac), START, frames, [f]);
    RunOfOne(Stepper(mac), After(mac, frames), f);
  }

  lemma {:induction false} RunPointed(mac: Mac, size: (real, real), frames: seq<Frame>)
    requires Displays(mac, size)
    ensures Shaped(After(mac, frames)) && After(mac, frames).last == LastPointed(frames)
  {
    if frames == [] {
    } else {
      var front, f := frames[..|frames| - 1], frames[|frames| - 1];
      assert frames == front + [f];
      RunPointed(mac, size, front);
      OneMoreFrame(mac, front, f);
      AppliedAnswers(mac, size, After(mac, front), f);
    }
  }

  lemma AppliedAnswers(mac: Mac, size: (real, real), h: Held, f: Frame)
    requires Displays(mac, size) && Shaped(h)
    ensures var g := Applied(mac, h, f);
            && Shaped(g) && g.last == (if Points(f) then (f.m.x, f.m.y) else h.last)
            && Adds(h.cg.out, g.cg.out, e => Answers(mac, size, f, g.last, e))
  {
    AppliedShaped(mac, h, f);
    if Applies(f) {
      HandledAnswers(mac, size, h, f);
    } else {
      ReleasedAnswers(mac, size, h, f);
    }
  }

  lemma AppliedShaped(mac: Mac, h: Held, f: Frame)
    requires Shaped(h)
    ensures Shaped(Applied(mac, h, f))
  {
    if Applies(f) {
      if f.m.KeyDown? || f.m.KeyUp? {
        PressKeepsButtons(mac, h.cg, f.m.code, f.m.KeyDown?);
      }
    } else {
      KeysUpShaped(mac, h.cg, h.keys);
      ButtonsUpShaped(mac, h.(keys := [], cg := KeysUp(mac, h.cg, h.keys)), 0);
    }
  }

  lemma {:induction false} ButtonsUpShaped(mac: Mac, h: Held, b: nat)
    requires Shaped(h) && b <= 3
    ensures Shaped(ButtonsUp(mac, h, b))
    decreases 3 - b
  {
    if b == 3 {
    } else {
      ButtonsUpShaped(mac, if h.buttons[b] then ButtonUp(mac, h, b) else h, b + 1);
    }
  }

  // Every event posted for a frame, after whatever frames came before, answers it: and
  // every mouse event is where the viewer's pointer was said to be last.
  lemma EventsAnswer(mac: Mac, size: (real, real), frames: seq<Frame>, f: Frame)
    requires Displays(mac, size)
    ensures Adds(After(mac, frames).cg.out, After(mac, frames + [f]).cg.out,
                 e => Answers(mac, size, f, LastPointed(frames + [f]), e))
  {
    RunPointed(mac, size, frames);
    RunPointed(mac, size, frames + [f]);
    OneMoreFrame(mac, frames, f);
    AppliedAnswers(mac, size, After(mac, frames), f);
  }

  // --- What is posted ---

  // How many events a message becomes, while posting is allowed.
  function HowMany(mac: Mac, h: Held, m: Msg): int
  {
    match m
    case Move(_, _) => 1
    case MouseDown(b, _, _) => if 0 <= b <= 2 then 1 else 0
    case MouseUp(b, _, _) => if 0 <= b <= 2 then 1 else 0
    case Wheel(dx, dy) => if dx == 0 && dy == 0 then 0 else 1
    case KeyDown(code) => if code in mac.codes && mac.codes[code] !in h.cg.mods then 1 else 0
    case KeyUp(code) => if code in mac.codes && mac.codes[code] !in MODIFIERS + {CAPS_LOCK} then 1 else 0
    case Unknown => 0
  }

  // Every message that changes something is posted at once, and a modifier that comes up
  // is posted after whatever it lets go of.
  lemma MessageIsPosted(mac: Mac, h: Held, m: Msg)
    requires Shaped(h) && mac.may(h.cg.asked) && h.cg.mods <= MODIFIERS
    ensures var was, now := h.cg.out, Handled(mac, h, m).cg.out;
            if m.KeyUp? && m.code in mac.codes && mac.codes[m.code] in h.cg.mods then
              MayAlways(mac) ==>
                |now| > |was| && now[|now| - 1].FlagsChanged? && now[|now| - 1].key == mac.codes[m.code]
            else |now| == |was| + HowMany(mac, h, m)
  {
    if m.KeyUp? && m.code in mac.codes && mac.codes[m.code] in h.cg.mods && MayAlways(mac) {
      LetGoAdds(mac, h.cg, mac.order(h.cg.asked, h.cg.keys), e => true);
    }
  }

  // --- What is held ---

  // The viewer's last word on a key, since all was last released, is that it is down.
  ghost predicate IsDown(frames: seq<Frame>, code: Code)
  {
    exists i :: 0 <= i < |frames| && Applies(frames[i]) && frames[i].m == KeyDown(code) && StaysDown(frames, i, code)
  }

  ghost predicate StaysDown(frames: seq<Frame>, i: nat, code: Code)
  {
    forall j :: i < j < |frames| ==> Applies(frames[j]) && frames[j].m != KeyUp(code)
  }

  ghost predicate ButtonIsDown(frames: seq<Frame>, b: nat)
  {
    exists i :: 0 <= i < |frames| && Applies(frames[i]) && frames[i].m.MouseDown? && frames[i].m.b == b
                && ButtonStaysDown(frames, i, b)
  }

  ghost predicate ButtonStaysDown(frames: seq<Frame>, i: nat, b: nat)
  {
    forall j :: i < j < |frames| ==> Applies(frames[j]) && !(frames[j].m.MouseUp? && frames[j].m.b == b)
  }

  lemma DownAfter(frames: seq<Frame>, f: Frame, code: Code)
    ensures IsDown(frames + [f], code)
            <==> Applies(f) && (f.m == KeyDown(code) || (IsDown(frames, code) && f.m != KeyUp(code)))
  {
    var all := frames + [f];
    if IsDown(all, code) {
      var i :| 0 <= i < |all| && Applies(all[i]) && all[i].m == KeyDown(code) && StaysDown(all, i, code);
      if i < |frames| {
        assert all[|frames|] == f && frames[i] == all[i];
        forall j | i < j < |frames|
          ensures Applies(frames[j]) && frames[j].m != KeyUp(code)
        {
          assert frames[j] == all[j];
        }
        assert StaysDown(frames, i, code);
      }
    }
    if Applies(f) && f.m == KeyDown(code) {
      assert all[|frames|] == f && StaysDown(all, |frames|, code);
    } else if Applies(f) && IsDown(frames, code) && f.m != KeyUp(code) {
      var i :| 0 <= i < |frames| && Applies(frames[i]) && frames[i].m == KeyDown(code) && StaysDown(frames, i, code);
      assert all[i] == frames[i] && StaysDown(all, i, code);
    }
  }

  lemma ButtonDownAfter(frames: seq<Frame>, f: Frame, b: nat)
    ensures ButtonIsDown(frames + [f], b)
            <==> Applies(f) && ((f.m.MouseDown? && f.m.b == b)
                                || (ButtonIsDown(frames, b) && !(f.m.MouseUp? && f.m.b == b)))
  {
    var all := frames + [f];
    if ButtonIsDown(all, b) {
      var i :| 0 <= i < |all| && Applies(all[i]) && all[i].m.MouseDown? && all[i].m.b == b
               && ButtonStaysDown(all, i, b);
      if i < |frames| {
        assert all[|frames|] == f && frames[i] == all[i];
        forall j | i < j < |frames|
          ensures Applies(frames[j]) && !(frames[j].m.MouseUp? && frames[j].m.b == b)
        {
          assert frames[j] == all[j];
        }
        assert ButtonStaysDown(frames, i, b);
      }
    }
    if Applies(f) && f.m.MouseDown? && f.m.b == b {
      assert all[|frames|] == f && ButtonStaysDown(all, |frames|, b);
    } else if Applies(f) && ButtonIsDown(frames, b) && !(f.m.MouseUp? && f.m.b == b) {
      var i :| 0 <= i < |frames| && Applies(frames[i]) && frames[i].m.MouseDown? && frames[i].m.b == b
               && ButtonStaysDown(frames, i, b);
      assert all[i] == frames[i] && ButtonStaysDown(all, i, b);
    }
  }

  // The handler holds exactly the keys and buttons that are down by the viewer's last
  // word on them.
  lemma {:induction false} HeldIsWhatIsDown(mac: Mac, frames: seq<Frame>, code: Code, b: nat)
    requires Sound(mac) && b < 3
    ensures var h := After(mac, frames);
            Shaped(h) && (code in h.keys <==> IsDown(frames, code)) && (h.buttons[b] <==> ButtonIsDown(frames, b))
  {
    RunAgrees(mac, frames);
    if frames == [] {
    } else {
      var front, f := frames[..|frames| - 1], frames[|frames| - 1];
      assert frames == front + [f];
      HeldIsWhatIsDown(mac, front, code, b);
      RunAgrees(mac, front);
      DownAfter(front, f, code);
      ButtonDownAfter(front, f, b);
      OneMoreFrame(mac, front, f);
      OneFrameHeld(mac, After(mac, front), f, code, b);
    }
  }

  lemma OneFrameHeld(mac: Mac, h: Held, f: Frame, code: Code, b: nat)
    requires Sound(mac) && Agree(mac, h) && b < 3
    ensures var g := Applied(mac, h, f);
            && Shaped(g)
            && (code in g.keys <==> Applies(f) && (f.m == KeyDown(code) || (code in h.keys && f.m != KeyUp(code))))
            && (g.buttons[b] <==>
                Applies(f) && ((f.m.MouseDown? && f.m.b == b) || (h.buttons[b] && !(f.m.MouseUp? && f.m.b == b))))
  {
    if Applies(f) {
      HandledAgrees(mac, h, f.m);
      if f.m.KeyUp? {
        WithoutIs(h.keys, f.m.code);
        assert code in Without(h.keys, f.m.code) <==> code in Members(Without(h.keys, f.m.code));
      }
    } else {
      ReleasedHoldsNothing(mac, h);
    }
  }

  // Keys are held in the order they went down, and go up in reverse: what went down
  // last goes up first.
  lemma LastDownGoesUpFirst(mac: Mac, h: Held, code: Code)
    requires Shaped(h) && code !in h.keys
    ensures Handled(mac, h, KeyDown(code)).keys == h.keys + [code]
    ensures KeysUp(mac, h.cg, h.keys + [code]) == KeysUp(mac, PressKey(mac, h.cg, code, false), h.keys)
  {
    assert (h.keys + [code])[..|h.keys|] == h.keys;
  }
}
