/** What the compositor takes from the keyboard instead of forwarding it. */
module Keyboard {
  import opened Options

  type Code = nat

  datatype Mods = Mods(ctrl: bool, alt: bool, shift: bool)
  datatype Sym = F4 | Super | OtherSym

  /** An input event. A key carries the modifiers and the symbol the keymap
      gives it then, and whether the shell's panel can be activated. */
  datatype Event =
    | Key(code: Code, pressed: bool, mods: Mods, sym: Sym, panel: bool)
    | ButtonPress
    | TouchDown

  /** A key event a client receives. */
  datatype KeyEvent = KeyEvent(code: Code, pressed: bool)

  datatype Shortcut = Close | Shell | Nothing

  /** Whether the key is forwarded, or taken for a shortcut. */
  datatype Filtered = Forward | Intercept(shortcut: Shortcut)

  datatype State = State(suppressed: seq<Code>, superTap: Option<Code>)

  function Remove(keys: seq<Code>, code: Code): seq<Code> {
    if keys == [] then []
    else if keys[0] == code then keys[1..]
    else [keys[0]] + Remove(keys[1..], code)
  }

  function Next(s: State, e: Event): (State, Filtered) {
    match e
    case ButtonPress => (s.(superTap := None), Forward)
    case TouchDown => (s.(superTap := None), Forward)
    case Key(code, pressed, mods, sym, _) =>
      if pressed then
        if mods.alt && sym == F4 then (State(s.suppressed + [code], None), Intercept(Close))
        else if sym == Super then
          (State(s.suppressed + [code], if !mods.ctrl && !mods.alt && !mods.shift then Some(code) else None),
           Intercept(Nothing))
        else (s.(superTap := None), Forward)
      else if code in s.suppressed then
        (State(Remove(s.suppressed, code), None), Intercept(if s.superTap == Some(code) then Shell else Nothing))
      else (s, Forward)
  }

  /** What reaches clients: forwarded keys, and the tap handed to the shell. */
  function Output(f: Filtered, e: Event): seq<KeyEvent> {
    if !e.Key? then []
    else if f.Forward? then [KeyEvent(e.code, e.pressed)]
    else if f.shortcut.Shell? && e.panel then [KeyEvent(e.code, true), KeyEvent(e.code, false)]
    else []
  }

  // ----- Alternation -----

  function After(down: set<Code>, k: KeyEvent): set<Code> {
    if k.pressed then down + {k.code} else down - {k.code}
  }

  /** Every press is of a key that is up, every release of one that is down. */
  predicate Alternates(keys: seq<KeyEvent>, down: set<Code>) {
    keys == [] || ((keys[0].pressed <==> keys[0].code !in down) && Alternates(keys[1..], After(down, keys[0])))
  }

  function Typed(events: seq<Event>): seq<KeyEvent> {
    if events == [] then []
    else (if events[0].Key? then [KeyEvent(events[0].code, events[0].pressed)] else []) + Typed(events[1..])
  }

  function Received(s: State, events: seq<Event>): seq<KeyEvent>
    decreases |events|
  {
    if events == [] then []
    else Output(Next(s, events[0]).1, events[0]) + Received(Next(s, events[0]).0, events[1..])
  }

  predicate NoDuplicates(keys: seq<Code>) { forall i, j :: 0 <= i < j < |keys| ==> keys[i] != keys[j] }

  /** `down` are the keys held: the suppressed ones among them were withheld. */
  predicate Inv(s: State, down: set<Code>) {
    && NoDuplicates(s.suppressed)
    && (forall c :: c in s.suppressed ==> c in down)
    && (s.superTap.Some? ==> s.superTap.value in s.suppressed)
  }

  function Forwarded(s: State, down: set<Code>): set<Code> { set c | c in down && c !in s.suppressed }

  lemma {:induction false} RemoveOne(keys: seq<Code>, code: Code)
    requires NoDuplicates(keys)
    ensures NoDuplicates(Remove(keys, code))
    ensures forall c :: c in Remove(keys, code) <==> c in keys && c != code
  {
    if keys != [] {
      assert NoDuplicates(keys[1..]);
      RemoveOne(keys[1..], code);
      forall i | 0 <= i < |keys[1..]| ensures keys[1..][i] != keys[0] { assert keys[1..][i] == keys[i + 1]; }
      if keys[0] != code {
        var rest := Remove(keys[1..], code);
        forall i | 0 <= i < |rest| ensures rest[i] != keys[0] { assert rest[i] in keys[1..]; }
        assert Remove(keys, code) == [keys[0]] + rest;
      }
    }
  }

  function DownAfter(down: set<Code>, e: Event): set<Code> {
    if e.Key? then After(down, KeyEvent(e.code, e.pressed)) else down
  }

  predicate Plausible(down: set<Code>, e: Event) { e.Key? ==> (e.pressed <==> e.code !in down) }

  /** One event keeps the books, and what clients receive alternates. */
  lemma NextKeeps(s: State, down: set<Code>, e: Event)
    requires Inv(s, down) && Plausible(down, e)
    ensures var (t, f) := Next(s, e);
      && Inv(t, DownAfter(down, e))
      && Alternates(Output(f, e), Forwarded(s, down))
      && HeldAfter(Output(f, e), Forwarded(s, down)) == Forwarded(t, DownAfter(down, e))
  {
    var (t, f) := Next(s, e);
    if e.Key? {
      RemoveOne(s.suppressed, e.code);
      var held := Forwarded(s, down);
      if f.Forward? {
        assert Output(f, e) == [KeyEvent(e.code, e.pressed)] && Output(f, e)[1..] == [];
        assert HeldAfter([], After(held, KeyEvent(e.code, e.pressed))) == After(held, KeyEvent(e.code, e.pressed));
        assert Forwarded(t, DownAfter(down, e)) == After(held, KeyEvent(e.code, e.pressed));
      } else if e.pressed {
        assert Forwarded(t, DownAfter(down, e)) == held;
      } else {
        assert Forwarded(t, DownAfter(down, e)) == held;
        var tap, release := KeyEvent(e.code, true), KeyEvent(e.code, false);
        assert [tap, release][1..] == [release] && [release][1..] == [];
        assert After(After(held, tap), release) == held;
        assert HeldAfter([tap, release], held) == HeldAfter([release], After(held, tap)) == HeldAfter([], held);
      }
    }
  }

  function HeldAfter(keys: seq<KeyEvent>, down: set<Code>): set<Code> {
    if keys == [] then down else HeldAfter(keys[1..], After(down, keys[0]))
  }

  lemma {:induction false} AlternatesAppend(a: seq<KeyEvent>, b: seq<KeyEvent>, down: set<Code>)
    ensures Alternates(a + b, down) <==> Alternates(a, down) && Alternates(b, HeldAfter(a, down))
    decreases |a|
  {
    if a == [] {
      assert a + b == b;
    } else {
      assert (a + b)[0] == a[0] && (a + b)[1..] == a[1..] + b;
      AlternatesAppend(a[1..], b, After(down, a[0]));
    }
  }

  /** Keys that alternate as they are typed alternate as they are received,
      the taps handed to the shell included. */
  lemma {:induction false} ReceivedAlternates(s: State, down: set<Code>, events: seq<Event>)
    requires Inv(s, down) && Alternates(Typed(events), down)
    ensures Alternates(Received(s, events), Forwarded(s, down))
    decreases |events|
  {
    if events != [] {
      var e := events[0];
      var (t, f) := Next(s, e);
      TypedFirst(events, down);
      NextKeeps(s, down, e);
      ReceivedAlternates(t, DownAfter(down, e), events[1..]);
      AlternatesAppend(Output(f, e), Received(t, events[1..]), Forwarded(s, down));
    }
  }

  lemma TypedFirst(events: seq<Event>, down: set<Code>)
    requires events != [] && Alternates(Typed(events), down)
    ensures Plausible(down, events[0]) && Alternates(Typed(events[1..]), DownAfter(down, events[0]))
  {
    if events[0].Key? {
      assert Typed(events)[1..] == Typed(events[1..]);
    } else {
      assert Typed(events) == Typed(events[1..]);
    }
  }

  lemma KeyboardAlternates(events: seq<Event>)
    requires Alternates(Typed(events), {})
    ensures Alternates(Received(State([], None), events), {})
  {
    ReceivedAlternates(State([], None), {}, events);
    assert Forwarded(State([], None), {}) == {};
  }

  // ----- What is withheld, and when the shell is shown -----

  /** The state before event `i`. */
  function StateAt(events: seq<Event>, i: nat): State
    requires i <= |events|
  {
    if i == 0 then State([], None) else Next(StateAt(events, i - 1), events[i - 1]).0
  }

  function DownAt(events: seq<Event>, i: nat): set<Code>
    requires i <= |events|
  {
    if i == 0 then {} else DownAfter(DownAt(events, i - 1), events[i - 1])
  }

  /** Every event up to `i` is plausible. */
  predicate Typable(events: seq<Event>) { forall i :: 0 <= i < |events| ==> Plausible(DownAt(events, i), events[i]) }

  lemma {:induction false} AlternatingUpTo(events: seq<Event>, i: nat)
    requires Alternates(Typed(events), {}) && i <= |events|
    ensures Alternates(Typed(events[i..]), DownAt(events, i))
    decreases i
  {
    if i == 0 {
      assert events[0..] == events;
    } else {
      AlternatingUpTo(events, i - 1);
      TypedFirst(events[i - 1..], DownAt(events, i - 1));
      assert events[i - 1..][1..] == events[i..];
    }
  }

  /** Keys that alternate are pressed when up and released when down. */
  lemma AlternatingIsTypable(events: seq<Event>)
    requires Alternates(Typed(events), {})
    ensures Typable(events)
  {
    forall i | 0 <= i < |events| ensures Plausible(DownAt(events, i), events[i]) {
      AlternatingUpTo(events, i);
      TypedFirst(events[i..], DownAt(events, i));
    }
  }

  predicate Taken(events: seq<Event>, i: nat)
    requires i < |events|
  {
    Next(StateAt(events, i), events[i]).1.Intercept?
  }

  predicate Shows(events: seq<Event>, i: nat)
    requires i < |events|
  {
    Next(StateAt(events, i), events[i]).1 == Intercept(Shell)
  }

  predicate IsPress(e: Event, code: Code) { e.Key? && e.pressed && e.code == code }
  predicate Reserved(e: Event) { e.Key? && e.pressed && ((e.mods.alt && e.sym == F4) || e.sym == Super) }
  predicate PlainSuper(e: Event) {
    Reserved(e) && e.sym == Super && !e.mods.ctrl && !e.mods.alt && !e.mods.shift
  }

  /** The event at `p` is the last press of `code` before `i`, and it is not released. */
  predicate LastPress(events: seq<Event>, p: nat, i: nat, code: Code)
    requires i <= |events|
  {
    p < i && IsPress(events[p], code) && forall k :: p < k < i ==> !(events[k].Key? && events[k].code == code)
  }

  /** A key is held since a press that was reserved. */
  ghost predicate ReservedHold(events: seq<Event>, i: nat, code: Code)
    requires i <= |events|
  {
    exists p: nat :: LastPress(events, p, i, code) && Reserved(events[p])
  }

  /** A release whose press the compositor reserved. */
  ghost predicate WithheldRelease(events: seq<Event>, i: nat)
    requires i < |events|
  {
    events[i].Key? && !events[i].pressed && ReservedHold(events, i, events[i].code)
  }

  lemma HoldStep(events: seq<Event>, i: nat, code: Code)
    requires i < |events|
    ensures ReservedHold(events, i + 1, code) <==>
              if events[i].Key? && events[i].code == code then events[i].pressed && Reserved(events[i])
              else ReservedHold(events, i, code)
  {
    if events[i].Key? && events[i].code == code {
      if ReservedHold(events, i + 1, code) {
        var p: nat :| LastPress(events, p, i + 1, code) && Reserved(events[p]);
        assert p == i;
      }
      if events[i].pressed { assert LastPress(events, i, i + 1, code); }
    } else {
      if ReservedHold(events, i, code) {
        var p: nat :| LastPress(events, p, i, code) && Reserved(events[p]);
        assert LastPress(events, p, i + 1, code);
      }
      if ReservedHold(events, i + 1, code) {
        var p: nat :| LastPress(events, p, i + 1, code) && Reserved(events[p]);
        assert LastPress(events, p, i, code);
      }
    }
  }

  lemma {:induction false} InvAt(events: seq<Event>, i: nat)
    requires Typable(events) && i <= |events|
    ensures Inv(StateAt(events, i), DownAt(events, i))
    decreases i
  {
    if i > 0 {
      InvAt(events, i - 1);
      NextKeeps(StateAt(events, i - 1), DownAt(events, i - 1), events[i - 1]);
    }
  }

  /** The suppressed keys are those held since a press that was reserved. */
  lemma {:induction false} SuppressedAt(events: seq<Event>, i: nat, code: Code)
    requires Typable(events) && i <= |events|
    ensures code in StateAt(events, i).suppressed <==> ReservedHold(events, i, code)
    decreases i
  {
    hide ReservedHold, Inv, Reserved, Next, DownAfter;
    if i > 0 {
      SuppressedAt(events, i - 1, code);
      HoldStep(events, i - 1, code);
      InvAt(events, i - 1);
      NextSuppressed(StateAt(events, i - 1), DownAt(events, i - 1), events[i - 1], code);
    } else {
      NothingHeldAtStart(events, code);
    }
  }

  lemma NothingHeldAtStart(events: seq<Event>, code: Code)
    ensures !ReservedHold(events, 0, code)
  {
  }

  lemma NextSuppressed(s: State, down: set<Code>, e: Event, code: Code)
    requires Inv(s, down) && Plausible(down, e)
    ensures code in Next(s, e).0.suppressed <==>
              if e.Key? && e.code == code then e.pressed && Reserved(e) else code in s.suppressed
  {
    if e.Key? { RemoveOne(s.suppressed, e.code); }
  }

  /** A key event is taken exactly when it is a reserved press or the release of one. */
  lemma TakenExactly(events: seq<Event>, i: nat)
    requires Alternates(Typed(events), {}) && i < |events|
    ensures Taken(events, i) <==> Reserved(events[i]) || WithheldRelease(events, i)
  {
    AlternatingIsTypable(events);
    if events[i].Key? { SuppressedAt(events, i, events[i].code); }
  }

  /** A release is withheld exactly when its press was. */
  lemma ReleaseFollowsPress(events: seq<Event>, p: nat, i: nat)
    requires Alternates(Typed(events), {}) && i < |events|
    requires events[i].Key? && !events[i].pressed && LastPress(events, p, i, events[i].code)
    ensures Taken(events, i) <==> Taken(events, p)
  {
    AlternatingIsTypable(events);
    TakenExactly(events, i);
    TakenExactly(events, p);
    forall q: nat | LastPress(events, q, i, events[i].code) ensures q == p {}
  }

  /** What makes a held Super key no longer a tap. */
  ghost predicate Spoils(events: seq<Event>, i: nat)
    requires i < |events|
  {
    events[i].ButtonPress? || events[i].TouchDown? || (events[i].Key? && events[i].pressed) || WithheldRelease(events, i)
  }

  ghost predicate Tapping(events: seq<Event>, p: nat, i: nat, code: Code)
    requires i <= |events|
  {
    p < i && events[p].Key? && PlainSuper(events[p]) && events[p].code == code && forall k :: p < k < i ==> !Spoils(events, k)
  }

  ghost predicate TapHeld(events: seq<Event>, i: nat, code: Code)
    requires i <= |events|
  {
    exists p: nat :: Tapping(events, p, i, code)
  }

  lemma TapStep(events: seq<Event>, i: nat, code: Code)
    requires i < |events|
    ensures TapHeld(events, i + 1, code) <==>
              || (events[i].Key? && PlainSuper(events[i]) && events[i].code == code)
              || (TapHeld(events, i, code) && !Spoils(events, i))
  {
    hide Spoils, PlainSuper;
    if events[i].Key? && PlainSuper(events[i]) && events[i].code == code { assert Tapping(events, i, i + 1, code); }
    if TapHeld(events, i, code) && !Spoils(events, i) {
      var p: nat :| Tapping(events, p, i, code);
      assert Tapping(events, p, i + 1, code);
    }
    if TapHeld(events, i + 1, code) {
      var p: nat :| Tapping(events, p, i + 1, code);
      assert p < i ==> Tapping(events, p, i, code);
    }
  }

  lemma {:induction false} SuperTapAt(events: seq<Event>, i: nat, code: Code)
    requires Alternates(Typed(events), {}) && i <= |events|
    ensures StateAt(events, i).superTap == Some(code) <==> TapHeld(events, i, code)
    decreases i
  {
    hide TapHeld, ReservedHold, Inv, Plausible;
    if i > 0 {
      SuperTapAt(events, i - 1, code);
      TapStep(events, i - 1, code);
      TakenExactly(events, i - 1);
    } else {
      NoTapAtStart(events, code);
    }
  }

  lemma NoTapAtStart(events: seq<Event>, code: Code)
    ensures !TapHeld(events, 0, code)
  {
  }

  /** The shell is shown exactly when a plain press of a Super key meets its
      release with no other press, click, touch or withheld release between. */
  lemma ShellShownExactly(events: seq<Event>, i: nat)
    requires Alternates(Typed(events), {}) && i < |events|
    ensures Shows(events, i) <==>
              && events[i].Key? && !events[i].pressed
              && TapHeld(events, i, events[i].code)
  {
    AlternatingIsTypable(events);
    if events[i].Key? {
      SuperTapAt(events, i, events[i].code);
      InvAt(events, i);
    }
  }

  /** What clients receive of event `i`: the tap, if it shows the shell and there
      is one, nothing of a key that is taken, and else the key as typed. */
  ghost function Heard(events: seq<Event>, i: nat): seq<KeyEvent>
    requires i < |events|
  {
    var e := events[i];
    if !e.Key? then []
    else if !e.pressed && TapHeld(events, i, e.code) then
      if e.panel then [KeyEvent(e.code, true), KeyEvent(e.code, false)] else []
    else if Reserved(e) || WithheldRelease(events, i) then []
    else [KeyEvent(e.code, e.pressed)]
  }

  ghost function AllHeard(events: seq<Event>, n: nat): seq<KeyEvent>
    requires n <= |events|
  {
    if n == 0 then [] else AllHeard(events, n - 1) + Heard(events, n - 1)
  }

  lemma HeardExactly(events: seq<Event>, i: nat)
    requires Alternates(Typed(events), {}) && i < |events|
    ensures Output(Next(StateAt(events, i), events[i]).1, events[i]) == Heard(events, i)
  {
    hide TapHeld, Reserved, WithheldRelease, StateAt, Alternates;
    TakenExactly(events, i);
    ShellShownExactly(events, i);
  }

  lemma {:induction false} HeardSoFar(events: seq<Event>, i: nat)
    requires Alternates(Typed(events), {}) && i <= |events|
    ensures Received(State([], None), events) == AllHeard(events, i) + Received(StateAt(events, i), events[i..])
    decreases i
  {
    if i == 0 {
      assert events[0..] == events;
    } else {
      HeardSoFar(events, i - 1);
      HeardExactly(events, i - 1);
      hide Heard, Next, Alternates, Output;
      var left := events[i - 1..];
      assert left[0] == events[i - 1] && left[1..] == events[i..];
      var rest := Received(StateAt(events, i), events[i..]);
      assert AllHeard(events, i - 1) + (Heard(events, i - 1) + rest) == AllHeard(events, i - 1) + Heard(events, i - 1) + rest;
    }
  }

  /** Clients receive the typed keys that are not taken, in order, and the tap
      of a Super key where it shows the shell. */
  lemma ReceivedExactly(events: seq<Event>)
    requires Alternates(Typed(events), {})
    ensures Received(State([], None), events) == AllHeard(events, |events|)
  {
    HeardSoFar(events, |events|);
    assert events[|events|..] == [];
    hide Alternates;
  }

  /** The focused window is asked to close exactly at a press of F4 with Alt. */
  lemma ClosesExactly(s: State, e: Event)
    ensures Next(s, e).1 == Intercept(Close) <==> e.Key? && e.pressed && e.mods.alt && e.sym == F4
  {
  }

  // ----- The compositor's state, changed per event -----

  class KeyFilter {
    var suppressedKeys: seq<Code>
    var superTap: Option<Code>

    constructor ()
      ensures View() == State([], None)
    {
      suppressedKeys, superTap := [], None;
    }

    function View(): State
      reads this
    {
      State(suppressedKeys, superTap)
    }

    method InterceptKey(e: Event) returns (filtered: Filtered)
      requires e.Key?
      modifies this
      ensures (View(), filtered) == Next(old(View()), e)
    {
      var code := e.code;
      if e.pressed {
        if e.mods.alt && e.sym == F4 {
          superTap := None;
          suppressedKeys := suppressedKeys + [code];
          return Intercept(Close);
        }
        if e.sym == Super {
          superTap := if !e.mods.ctrl && !e.mods.alt && !e.mods.shift then Some(code) else None;
          suppressedKeys := suppressedKeys + [code];
          return Intercept(Nothing);
        }
        superTap := None;
      } else if code in suppressedKeys {
        suppressedKeys := Remove(suppressedKeys, code);
        var tap := superTap;
        superTap := None;
        return Intercept(if tap == Some(code) then Shell else Nothing);
      }
      return Forward;
    }

    /** Everything a client receives of a run of events. */
    method Process(events: seq<Event>) returns (received: seq<KeyEvent>)
      modifies this
      ensures received == Received(old(View()), events)
    {
      received := [];
      var i := 0;
      assert events[0..] == events;
      while i < |events|
        invariant i <= |events|
        invariant received + Received(View(), events[i..]) == Received(old(View()), events)
      {
        var e := events[i];
        assert events[i..][0] == e && events[i..][1..] == events[i + 1..];
        var filtered := Forward;
        ghost var before := View();
        if e.Key? { filtered := InterceptKey(e); } else { superTap := None; }
        assert (View(), filtered) == Next(before, e);
        assert received + (Output(filtered, e) + Received(View(), events[i + 1..]))
            == received + Output(filtered, e) + Received(View(), events[i + 1..]);
        received := received + Output(filtered, e);
        i := i + 1;
      }
    }
  }
}
