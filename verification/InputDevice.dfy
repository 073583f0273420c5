/** The injector and the handler as the objects they are, updated in place
    (host-agent/internal/input/inject_darwin.go, host-agent/internal/input/handler.go
    and host-agent/internal/session/inputgate.go), each method against what module
    Input says of it. */
module InputDevice {
  import opened Prelude
  import opened Input

  class CgInput {
    const mac: Mac
    const buttons: array<bool>
    var mods: set<Key>
    var keys: set<Key>
    var caps: bool
    var at: (real, real)
    var asked: nat
    var out: seq<Event>

    constructor (mac: Mac)
      ensures this.mac == mac && Valid() && View() == CG_START && fresh(buttons)
    {
      this.mac := mac;
      mods, keys, caps, at, asked, out := {}, {}, false, (0.0, 0.0), 0, [];
      buttons := new bool[3](_ => false);
      new;
      assert buttons[..] == NO_BUTTONS;
    }

    ghost predicate Valid() { buttons.Length == 3 }

    function View(): (c: Cg)
      reads this, buttons
    {
      Cg(mods, keys, caps, buttons[..], at, asked, out)
    }

    // flags, the modifiers taken in any order.
    method Flags() returns (f: set<Bit>)
      ensures f == FlagsOf(mods, caps)
    {
      f := {};
      var rest := mods;
      while rest != {}
        invariant rest <= mods && f == (set k, b | k in mods - rest && b in ModifierFlags(k) :: b)
        decreases rest
      {
        var k := AnyOf(rest);
        f := f + ModifierFlags(k);
        rest := rest - {k};
      }
      if caps {
        f := f + {AlphaShift};
      }
    }

    // Whether the agent may post is asked, and the event posted if so.
    method PostEvent(e: Event)
      requires Valid()
      modifies this`asked, this`out
      ensures View() == Post(mac, old(View()), e)
    {
      if mac.may(asked) {
        out := out + [e];
      }
      asked := asked + 1;
    }

    // point.
    method Point(x: real, y: real) returns (p: (real, real))
      requires Valid()
      ensures p == Pointed(mac, View(), x, y)
    {
      var screen := mac.screen(asked);
      if screen.None? {
        return at;
      }
      return (Along(x, screen.value.0), Along(y, screen.value.1));
    }

    method Move(x: real, y: real)
      requires Valid()
      modifies this`at, this`asked, this`out
      ensures View() == MoveMouse(mac, old(View()), x, y)
    {
      at := Point(x, y);
      var f := Flags();
      for b := 0 to 3
        invariant forall i :: 0 <= i < b ==> !buttons[i]
        invariant View() == old(View()).(at := Pointed(mac, old(View()), x, y))
      {
        if buttons[b] {
          PostEvent(Mouse(Dragged, b, at, f));
          return;
        }
      }
      PostEvent(Mouse(Moved, 0, at, f));
    }

    method Click(button: int, down: bool, x: real, y: real)
      requires Valid()
      modifies this`at, this`asked, this`out, buttons
      ensures View() == if ValidButton(button) then ClickMouse(mac, old(View()), button, down, x, y) else old(View())
    {
      if button < 0 || button >= buttons.Length {
        return;
      }
      at := Point(x, y);
      buttons[button] := down;
      var f := Flags();
      PostEvent(Mouse(if down then Pressed else Lifted, button, at, f));
    }

    method Wheel(dx: int, dy: int)
      requires Valid()
      modifies this`asked, this`out
      ensures View() == ScrollWheel(mac, old(View()), dx, dy)
    {
      var vertical, horizontal := ClampInt32(dy), ClampInt32(-dx);
      if vertical == 0 && horizontal == 0 {
        return;
      }
      var f := Flags();
      PostEvent(Scroll(vertical, horizontal, f));
    }

    // releaseHeldKeys.
    method LetGoOfKeys()
      requires Valid()
      modifies this`keys, this`asked, this`out
      ensures View() == ReleaseHeldKeys(mac, old(View()))
    {
      var order := mac.order(asked, keys);
      for i := 0 to |order|
        invariant LetGo(mac, View(), order[i..]) == LetGo(mac, old(View()), order)
        invariant mods == old(mods) && caps == old(caps)
      {
        keys := keys - {order[i]};
        var f := Flags();
        PostEvent(KeyEvent(order[i], false, false, f));
        assert order[i..][1..] == order[i + 1..];
      }
    }

    method ModifierKey(k: Key, down: bool)
      requires Valid()
      modifies this`mods, this`keys, this`asked, this`out
      ensures View() == PressModifier(mac, old(View()), k, down)
    {
      if (k in mods) == down {
        return;
      }
      if down {
        mods := mods + {k};
      } else {
        if (k == COMMAND && RIGHT_COMMAND !in mods) || (k == RIGHT_COMMAND && COMMAND !in mods) {
          ghost var c := View();
          LetGoOfKeys();
          LetGoFrame(mac, c, mac.order(c.asked, c.keys));
        }
        mods := mods - {k};
      }
      var f := Flags();
      PostEvent(FlagsChanged(k, f));
    }

    method Press(code: Code, down: bool)
      requires Valid()
      modifies this
      ensures View() == PressKey(mac, old(View()), code, down)
    {
      if code !in mac.codes {
        return;
      }
      var k := mac.codes[code];
      if k == CAPS_LOCK {
        if down {
          caps := !caps;
          var f := Flags();
          PostEvent(FlagsChanged(k, f));
        }
      } else if k in MODIFIERS {
        ModifierKey(k, down);
      } else {
        var again := down && k in keys;
        keys := if down then keys + {k} else keys - {k};
        var f := Flags();
        PostEvent(KeyEvent(k, down, again, f));
      }
    }
  }

  class Handler {
    const inj: CgInput
    const buttons: array<bool>
    var keys: seq<Code>
    var keySet: set<Code>
    var last: (real, real)

    constructor (inj: CgInput)
      requires inj.Valid()
      ensures this.inj == inj && Valid() && keys == [] && buttons[..] == NO_BUTTONS && fresh(buttons)
    {
      this.inj, keys, keySet, last := inj, [], {}, (0.0, 0.0);
      buttons := new bool[3](_ => false);
      new;
      assert buttons[..] == NO_BUTTONS;
    }

    // The key set is the key list, and no key is in the list twice.
    ghost predicate Valid()
      reads this
    {
      && inj.Valid() && buttons.Length == 3 && buttons != inj.buttons
      && Unique(keys) && keySet == Members(keys)
    }

    function View(): Held
      reads this, buttons, inj, inj.buttons
    {
      Held(keys, buttons[..], last, inj.View())
    }

    method ForgetKey(code: Code)
      requires Valid()
      modifies this`keys, this`keySet
      ensures Valid() && keys == Without(old(keys), code)
    {
      WithoutIs(keys, code);
      if code !in keySet {
        AbsentStays(keys, code);
        return;
      }
      keySet := keySet - {code};
      for i := 0 to |keys|
        invariant keys == old(keys) && forall j :: 0 <= j < i ==> keys[j] != code
      {
        if keys[i] == code {
          WithoutAt(keys, code, i);
          keys := keys[..i] + keys[i + 1..];
          return;
        }
      }
      assert false;
    }

    method HandleButton(b: int, down: bool, x: real, y: real)
      requires Valid()
      modifies this`last, buttons, inj, inj.buttons
      ensures Valid()
      ensures View() == Handled(inj.mac, old(View()), if down then MouseDown(b, x, y) else MouseUp(b, x, y))
    {
      if !ValidButton(b) {
        return;
      }
      last := (x, y);
      buttons[b] := down;
      inj.Click(b, down, x, y);
    }

    method Handle(m: Msg)
      requires Valid()
      modifies this, buttons, inj, inj.buttons
      ensures Valid() && View() == Handled(inj.mac, old(View()), m)
    {
      match m
      case Move(x, y) =>
        last := (x, y);
        inj.Move(x, y);
      case MouseDown(b, x, y) => HandleButton(b, true, x, y);
      case MouseUp(b, x, y) => HandleButton(b, false, x, y);
      case Wheel(dx, dy) => inj.Wheel(dx, dy);
      case KeyDown(code) =>
        if code !in keySet {
          keySet := keySet + {code};
          keys := keys + [code];
        }
        inj.Press(code, true);
      case KeyUp(code) =>
        ForgetKey(code);
        inj.Press(code, false);
      case Unknown =>
    }

    method ReleaseButtons()
      requires Valid()
      modifies buttons, inj, inj.buttons
      ensures Valid() && View() == ButtonsUp(inj.mac, old(View()), 0)
    {
      for b := 0 to 3
        invariant Valid() && Shaped(View()) && ButtonsUp(inj.mac, View(), b) == ButtonsUp(inj.mac, old(View()), 0)
      {
        if buttons[b] {
          inj.Click(b, false, last.0, last.1);
          buttons[b] := false;
        }
      }
    }

    method ReleaseKeys()
      requires Valid()
      modifies this`keys, this`keySet, inj, inj.buttons
      ensures Valid() && View() == old(View()).(keys := [], cg := KeysUp(inj.mac, old(inj.View()), old(keys)))
    {
      ghost var c0 := inj.View();
      var i := |keys|;
      assert keys[..i] == keys;
      while i > 0
        invariant 0 <= i <= |keys| && keys == old(keys) && keySet == old(keySet) && buttons[..] == old(buttons[..])
        invariant KeysUp(inj.mac, inj.View(), keys[..i]) == KeysUp(inj.mac, c0, keys)
      {
        assert keys[..i][..i - 1] == keys[..i - 1];
        inj.Press(keys[i - 1], false);
        i := i - 1;
      }
      keys, keySet := [], {};
    }

    method ReleaseAll()
      requires Valid()
      modifies this, buttons, inj, inj.buttons
      ensures Valid() && View() == Released(inj.mac, old(View()))
    {
      KeysUpShaped(inj.mac, inj.View(), keys);
      ReleaseKeys();
      ReleaseButtons();
    }

    // applyInput: what is held is let go of, and the frame dropped, while a prompt is up.
    method ApplyInput(busy: bool, m: Msg)
      requires Valid()
      modifies this, buttons, inj, inj.buttons
      ensures Valid() && View() == Applied(inj.mac, old(View()), Frame(busy, m))
    {
      if busy {
        ReleaseAll();
        return;
      }
      Handle(m);
    }
  }

  lemma {:induction false} AbsentStays(keys: seq<Code>, code: Code)
    requires code !in keys
    ensures Without(keys, code) == keys
  {
    if keys == [] {
    } else {
      AbsentStays(keys[1..], code);
    }
  }

  lemma {:induction false} WithoutAt(keys: seq<Code>, code: Code, i: nat)
    requires i < |keys| && keys[i] == code && forall j :: 0 <= j < i ==> keys[j] != code
    ensures Without(keys, code) == keys[..i] + keys[i + 1..]
  {
    if i == 0 {
    } else {
      WithoutAt(keys[1..], code, i - 1);
      assert keys[1..][..i - 1] == keys[1..i] && keys[1..][i..] == keys[i + 1..];
      assert [keys[0]] + keys[1..i] == keys[..i];
    }
  }
}
