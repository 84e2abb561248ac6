/** Which window is in front, and which has the keyboard. */
module Windows {
  import opened Options

  type SessionId = nat
  type Surface = nat

  /** A toplevel: its surface, and the session its client is bound to. */
  datatype Window = Window(surface: Surface, session: Option<SessionId>)

  /** A panel registered by the trusted shell. */
  datatype Panel = Panel(resource: nat, surface: Option<Surface>)

  /** The windows from the bottom to the top, the surface with keyboard focus,
      the registered panels, the attached sessions and those among them that
      already took focus by mapping a window. */
  datatype Desk = Desk(
    stack: seq<Window>,
    focus: Option<Surface>,
    panels: seq<Panel>,
    sessions: set<SessionId>,
    focusedOnMap: set<SessionId>)

  // ----- The stack -----

  predicate Distinct(stack: seq<Window>) {
    forall i, j :: 0 <= i < j < |stack| ==> stack[i].surface != stack[j].surface
  }

  predicate Mapped(stack: seq<Window>, surface: Surface) {
    exists i :: 0 <= i < |stack| && stack[i].surface == surface
  }

  function Without(stack: seq<Window>, w: Window): seq<Window> {
    if stack == [] then []
    else if stack[0] == w then Without(stack[1..], w)
    else [stack[0]] + Without(stack[1..], w)
  }

  /** Where `Space` puts a window that is mapped or raised. */
  function MapElement(stack: seq<Window>, w: Window): seq<Window> { Without(stack, w) + [w] }

  /** The windows not among `done`, in order. */
  function Keep(stack: seq<Window>, done: seq<Window>): seq<Window> {
    if stack == [] then []
    else if stack[0] in done then Keep(stack[1..], done)
    else [stack[0]] + Keep(stack[1..], done)
  }

  lemma {:induction false} WithoutAppend(a: seq<Window>, b: seq<Window>, w: Window)
    ensures Without(a + b, w) == Without(a, w) + Without(b, w)
    decreases |a|
  {
    if a == [] {
      assert a + b == b;
    } else {
      assert (a + b)[0] == a[0] && (a + b)[1..] == a[1..] + b;
      WithoutAppend(a[1..], b, w);
    }
  }

  lemma {:induction false} WithoutAbsent(s: seq<Window>, w: Window)
    requires w !in s
    ensures Without(s, w) == s
  {
    if s != [] {
      WithoutAbsent(s[1..], w);
    }
  }

  lemma {:induction false} KeepMore(s: seq<Window>, done: seq<Window>, w: Window)
    ensures Without(Keep(s, done), w) == Keep(s, done + [w])
  {
    if s != [] {
      KeepMore(s[1..], done, w);
      if s[0] !in done {
        assert Keep(s, done)[1..] == Keep(s[1..], done);
      }
    }
  }

  lemma {:induction false} KeepNone(s: seq<Window>)
    ensures Keep(s, []) == s
  {
    if s != [] { KeepNone(s[1..]); }
  }

  lemma {:induction false} KeepOthers(s: seq<Window>, done: seq<Window>)
    requires forall w :: w in s ==> w in done
    ensures Keep(s, done) == []
  {
    if s != [] { KeepOthers(s[1..], done); }
  }

  lemma {:induction false} WithoutKeeps(s: seq<Window>, w: Window)
    requires Distinct(s)
    ensures Distinct(Without(s, w)) && w !in Without(s, w)
    ensures forall x :: x in Without(s, w) <==> x in s && x != w
    ensures s != [] && s[|s| - 1] != w ==> Without(s, w) != [] && Without(s, w)[|Without(s, w)| - 1] == s[|s| - 1]
  {
    if s != [] {
      assert Distinct(s[1..]);
      WithoutKeeps(s[1..], w);
      var rest := Without(s[1..], w);
      forall i | 0 <= i < |rest| ensures rest[i].surface != s[0].surface {
        assert rest[i] in s[1..];
        var k :| 0 <= k < |s[1..]| && s[1..][k] == rest[i];
        assert s[k + 1] == rest[i];
      }
      if |s| > 1 { assert s[1..][|s| - 2] == s[|s| - 1]; }
    }
  }

  // ----- Panels -----

  function PanelSurfaces(panels: seq<Panel>): set<Surface> {
    set p | p in panels && p.surface.Some? :: p.surface.value
  }

  predicate IsPanel(panels: seq<Panel>, w: Window) { w.surface in PanelSurfaces(panels) }

  /** The panel windows of the stack, or the others, in order. */
  function Part(stack: seq<Window>, panels: seq<Panel>, panel: bool): seq<Window> {
    if stack == [] then []
    else (if IsPanel(panels, stack[0]) == panel then [stack[0]] else []) + Part(stack[1..], panels, panel)
  }

  /** At most one mapped window is a panel's. */
  predicate OnePanel(stack: seq<Window>, panels: seq<Panel>) { |Part(stack, panels, true)| <= 1 }

  /** The order `place_windows` computes. */
  function Order(stack: seq<Window>, panels: seq<Panel>, lowerPanels: bool, belowTop: Option<Window>): seq<Window> {
    var order := if lowerPanels then Part(stack, panels, true) + Part(stack, panels, false) else stack;
    if belowTop.Some? && |order| > 1 && order[|order| - 1] == belowTop.value
    then SwapTop(order)
    else order
  }

  lemma {:induction false} PartSplits(stack: seq<Window>, panels: seq<Panel>)
    ensures multiset(Part(stack, panels, true)) + multiset(Part(stack, panels, false)) == multiset(stack)
  {
    if stack != [] {
      PartSplits(stack[1..], panels);
      assert stack == [stack[0]] + stack[1..];
    }
  }

  function SwapTop(order: seq<Window>): seq<Window>
    requires |order| > 1
  {
    order[..|order| - 2] + [order[|order| - 1], order[|order| - 2]]
  }

  lemma SwapPermutes(order: seq<Window>)
    requires |order| > 1
    ensures multiset(SwapTop(order)) == multiset(order)
  {
    var n := |order|;
    var rest, x, y := order[..n - 2], order[n - 2], order[n - 1];
    assert order == rest + [x, y];
    assert multiset([x, y]) == multiset([y, x]);
  }

  /** The computed order holds the same windows. */
  lemma OrderPermutes(stack: seq<Window>, panels: seq<Panel>, lowerPanels: bool, belowTop: Option<Window>)
    ensures multiset(Order(stack, panels, lowerPanels, belowTop)) == multiset(stack)
  {
    PartSplits(stack, panels);
    var order := if lowerPanels then Part(stack, panels, true) + Part(stack, panels, false) else stack;
    if belowTop.Some? && |order| > 1 && order[|order| - 1] == belowTop.value {
      SwapPermutes(order);
    }
  }

  lemma DistinctPermuted(a: seq<Window>, b: seq<Window>)
    requires multiset(a) == multiset(b) && Distinct(a)
    ensures Distinct(b) && |a| == |b| && forall w :: w in a <==> w in b
  {
    assert |multiset(a)| == |a| && |multiset(b)| == |b|;
    forall w ensures w in a <==> w in b {
      assert w in multiset(a) <==> w in a;
      assert w in multiset(b) <==> w in b;
    }
    DistinctByCount(b, a);
  }

  lemma DistinctByCount(b: seq<Window>, a: seq<Window>)
    requires multiset(a) == multiset(b) && Distinct(a)
    ensures Distinct(b)
  {
    forall i, j | 0 <= i < j < |b| ensures b[i].surface != b[j].surface {
      var x, y := b[i], b[j];
      assert b == b[..i] + [x] + b[i + 1..j] + [y] + b[j + 1..];
      assert multiset(b)[x] > 0 && multiset(b)[y] > 0;
      if x == y {
        assert multiset(b)[x] >= 2;
        CountOnce(a, x);
      } else {
        assert x in a && y in a;
      }
    }
  }

  lemma {:induction false} CountOnce(a: seq<Window>, x: Window)
    requires Distinct(a)
    ensures multiset(a)[x] <= 1
  {
    if a != [] {
      assert a == [a[0]] + a[1..];
      assert Distinct(a[1..]);
      CountOnce(a[1..], x);
      if x == a[0] {
        forall k | 0 <= k < |a[1..]| ensures a[1..][k] != x { assert a[1..][k] == a[k + 1]; }
        assert multiset(a[1..])[x] == 0;
      }
    }
  }

  lemma {:induction false} PartAppend(a: seq<Window>, b: seq<Window>, panels: seq<Panel>, panel: bool)
    ensures Part(a + b, panels, panel) == Part(a, panels, panel) + Part(b, panels, panel)
    decreases |a|
  {
    if a == [] {
      assert a + b == b;
    } else {
      assert (a + b)[0] == a[0] && (a + b)[1..] == a[1..] + b;
      PartAppend(a[1..], b, panels, panel);
    }
  }

  lemma {:induction false} PartMembers(stack: seq<Window>, panels: seq<Panel>, panel: bool)
    ensures forall w :: w in Part(stack, panels, panel) <==> w in stack && IsPanel(panels, w) == panel
  {
    if stack != [] { PartMembers(stack[1..], panels, panel); }
  }

  /** The part in which the topmost window is keeps it on top. */
  lemma PartTop(stack: seq<Window>, panels: seq<Panel>)
    requires stack != []
    ensures var top := stack[|stack| - 1]; var part := Part(stack, panels, IsPanel(panels, top));
      part != [] && part[|part| - 1] == top
  {
    var n := |stack| - 1;
    assert stack == stack[..n] + [stack[n]];
    PartAppend(stack[..n], [stack[n]], panels, IsPanel(panels, stack[n]));
    assert Part([stack[n]], panels, IsPanel(panels, stack[n])) == [stack[n]];
  }

  predicate Below(stack: seq<Window>, x: Window, y: Window) {
    exists i, j :: 0 <= i < j < |stack| && stack[i] == x && stack[j] == y
  }

  /** A part keeps the order its windows had. */
  lemma {:induction false} PartStable(stack: seq<Window>, panels: seq<Panel>, panel: bool, i: nat, j: nat)
    requires i < j < |Part(stack, panels, panel)|
    ensures Below(stack, Part(stack, panels, panel)[i], Part(stack, panels, panel)[j])
  {
    var part, rest := Part(stack, panels, panel), Part(stack[1..], panels, panel);
    if IsPanel(panels, stack[0]) == panel {
      assert part == [stack[0]] + rest;
      if i == 0 {
        PartMembers(stack[1..], panels, panel);
        assert rest[j - 1] in stack[1..];
        var k :| 0 <= k < |stack[1..]| && stack[1..][k] == part[j];
        assert stack[0] == part[i] && stack[k + 1] == part[j];
      } else {
        PartStable(stack[1..], panels, panel, i - 1, j - 1);
        BelowTail(stack, part[i], part[j]);
      }
    } else {
      assert part == rest;
      PartStable(stack[1..], panels, panel, i, j);
      BelowTail(stack, part[i], part[j]);
    }
  }

  lemma BelowTail(stack: seq<Window>, x: Window, y: Window)
    requires stack != [] && Below(stack[1..], x, y)
    ensures Below(stack, x, y)
  {
    var i, j :| 0 <= i < j < |stack[1..]| && stack[1..][i] == x && stack[1..][j] == y;
    assert stack[i + 1] == x && stack[j + 1] == y;
  }

  /** Lowering puts every panel beneath every application and changes no
      order among panels or among applications. */
  lemma LoweringIsStable(stack: seq<Window>, panels: seq<Panel>, i: nat, j: nat)
    requires i < j < |stack|
    ensures var order := Order(stack, panels, true, None);
      && |order| == |stack|
      && (IsPanel(panels, order[j]) ==> IsPanel(panels, order[i]))
      && (IsPanel(panels, order[i]) == IsPanel(panels, order[j]) ==> Below(stack, order[i], order[j]))
  {
    PartSize(stack, panels);
    var lower, apps := Part(stack, panels, true), Part(stack, panels, false);
    var order, n := lower + apps, |lower|;
    PartMembers(stack, panels, true);
    PartMembers(stack, panels, false);
    assert if i < n then order[i] in lower else order[i] in apps;
    assert if j < n then order[j] in lower else order[j] in apps;
    if j < n {
      PartStable(stack, panels, true, i, j);
    } else if i >= n {
      PartStable(stack, panels, false, i - n, j - n);
    }
  }

  /** A new window that takes no focus goes right under the window in front,
      and a relayout alone moves nothing. */
  lemma NewWindowBelowTop(stack: seq<Window>, panels: seq<Panel>, w: Window)
    requires stack != []
    ensures var n := |stack|;
      Order(stack + [w], panels, false, Some(w)) == stack[..n - 1] + [w] + [stack[n - 1]]
    ensures Order(stack, panels, false, None) == stack
  {
    assert (stack + [w])[..|stack| - 1] == stack[..|stack| - 1];
  }

  // ----- What each event does -----

  function Find(stack: seq<Window>, surface: Surface): (found: Option<Window>)
    ensures found.Some? ==> found.value in stack && found.value.surface == surface
    ensures found.None? <==> !Mapped(stack, surface)
  {
    if stack == [] then None
    else if stack[0].surface == surface then Some(stack[0])
    else
      var rest := Find(stack[1..], surface);
      assert Mapped(stack[1..], surface) ==> Mapped(stack, surface) by {
        if Mapped(stack[1..], surface) {
          var i :| 0 <= i < |stack[1..]| && stack[1..][i].surface == surface;
          assert stack[i + 1].surface == surface;
        }
      }
      assert Mapped(stack, surface) ==> Mapped(stack[1..], surface) by {
        if Mapped(stack, surface) {
          var i :| 0 <= i < |stack| && stack[i].surface == surface;
          assert stack[1..][i - 1].surface == surface;
        }
      }
      rest
  }

  /** The topmost application window. */
  function TopApp(stack: seq<Window>, panels: seq<Panel>): (found: Option<Window>)
    ensures found.Some? ==> found.value in stack && !IsPanel(panels, found.value)
    ensures found.None? ==> forall w :: w in stack ==> IsPanel(panels, w)
  {
    if stack == [] then None
    else if !IsPanel(panels, stack[|stack| - 1]) then Some(stack[|stack| - 1])
    else TopApp(stack[..|stack| - 1], panels)
  }

  /** The topmost window of a session. */
  function TopOfSession(stack: seq<Window>, session: SessionId): (found: Option<Window>)
    ensures found.Some? ==> found.value in stack && found.value.session == Some(session)
    ensures found.None? ==> forall w :: w in stack ==> w.session != Some(session)
  {
    if stack == [] then None
    else if stack[|stack| - 1].session == Some(session) then Some(stack[|stack| - 1])
    else TopOfSession(stack[..|stack| - 1], session)
  }

  /** The desk with `w` on top and focused. */
  function Activate(d: Desk, w: Window): Desk {
    d.(stack := MapElement(d.stack, w), focus := Some(w.surface))
  }

  function Place(d: Desk, lowerPanels: bool, belowTop: Option<Window>): Desk {
    d.(stack := Order(d.stack, d.panels, lowerPanels, belowTop))
  }

  function Fit(d: Desk): Desk {
    var lowered := Place(d, true, None);
    var n := |lowered.stack|;
    if d.focus.Some? && d.focus.value in PanelSurfaces(d.panels) && n > 0 && !IsPanel(d.panels, lowered.stack[n - 1])
    then Activate(lowered, lowered.stack[n - 1])
    else lowered
  }

  predicate TakesFocus(d: Desk, w: Window) {
    match w.session
    case Some(s) => s in d.sessions && s !in d.focusedOnMap
    case None => forall x :: x in d.stack ==> x.session.Some?
  }

  function MapNew(d: Desk, w: Window): Desk {
    var first := TakesFocus(d, w);
    var noted := if first && w.session.Some? then d.(focusedOnMap := d.focusedOnMap + {w.session.value}) else d;
    var mapped := noted.(stack := MapElement(noted.stack, w));
    if IsPanel(d.panels, w) then Fit(mapped)
    else if first then Activate(Place(mapped, false, None), w)
    else Place(mapped, false, Some(w))
  }

  function Closed(d: Desk, surface: Surface): Desk {
    match Find(d.stack, surface)
    case None => d
    case Some(w) =>
      var left := d.(stack := Without(d.stack, w));
      if left.focus.Some? && left.focus.value != surface then left
      else
        match TopApp(left.stack, left.panels)
        case Some(next) => Activate(left, next)
        case None => if left.stack != [] then Activate(left, left.stack[0]) else left.(focus := None)
  }

  /** The first registered panel that has a window. */
  function PanelWindow(panels: seq<Panel>, stack: seq<Window>): (found: Option<Window>)
    ensures found.Some? ==> found.value in stack
  {
    if panels == [] then None
    else
      var w := if panels[0].surface.Some? then Find(stack, panels[0].surface.value) else None;
      if w.Some? then w else PanelWindow(panels[1..], stack)
  }

  function WithoutPanel(panels: seq<Panel>, resource: nat): seq<Panel> {
    if panels == [] then []
    else if panels[0].resource == resource then WithoutPanel(panels[1..], resource)
    else [panels[0]] + WithoutPanel(panels[1..], resource)
  }

  datatype Event =
    | MapWindow(w: Window)
    | CloseWindow(surface: Surface)
    | Click(under: Option<Surface>)
    | ActivatePanel
    | ActivateSession(session: SessionId)
    | RegisterPanel(panel: Panel, caller: Option<SessionId>)
    | RemovePanel(resource: nat)
    | Relayout
    | Attach(session: SessionId)
    | Detach(session: SessionId)
    | AppdGone

  function Next(d: Desk, e: Event): Desk {
    match e
    case MapWindow(w) => MapNew(d, w)
    case CloseWindow(surface) => Closed(d, surface)
    case Click(under) =>
      (match if under.Some? then Find(d.stack, under.value) else None
       case Some(w) => Activate(d, w)
       case None => d.(focus := None))
    case ActivatePanel =>
      (match PanelWindow(d.panels, d.stack) case Some(w) => Activate(d, w) case None => d)
    case ActivateSession(s) =>
      (match TopOfSession(d.stack, s) case Some(w) => Activate(d, w) case None => d)
    case RegisterPanel(panel, caller) =>
      // A client bound to a session may not take a shell role.
      if caller.Some? then d else Fit(d.(panels := d.panels + [panel]))
    case RemovePanel(resource) =>
      var left := d.(panels := WithoutPanel(d.panels, resource));
      (match OwnPanel(d.panels, resource)
       case None => d
       case Some(p) => Place(if p.surface.Some? then Closed(left, p.surface.value) else left, false, None))
    case Relayout => Place(d, false, None)
    case Attach(s) => d.(sessions := d.sessions + {s})
    case Detach(s) => d.(sessions := d.sessions - {s}, focusedOnMap := d.focusedOnMap - {s})
    case AppdGone => d.(sessions := {}, focusedOnMap := {})
  }

  function OwnPanel(panels: seq<Panel>, resource: nat): Option<Panel> {
    if panels == [] then None
    else if panels[0].resource == resource then Some(panels[0])
    else OwnPanel(panels[1..], resource)
  }

  // ----- Focus is on top -----

  /** Keyboard focus is nobody's or the topmost window's. */
  predicate FocusOnTop(d: Desk) {
    d.focus.Some? ==> d.stack != [] && d.stack[|d.stack| - 1].surface == d.focus.value
  }

  predicate Inv(d: Desk) {
    && Distinct(d.stack)
    && FocusOnTop(d)
    && OnePanel(d.stack, d.panels)
    && d.focusedOnMap <= d.sessions
  }

  /** A window is mapped once, and the events that could make a second window
      a panel's do not. */
  predicate Allowed(d: Desk, e: Event) {
    match e
    case MapWindow(w) => !Mapped(d.stack, w.surface) && OnePanel(d.stack + [w], d.panels)
    case RegisterPanel(panel, caller) => caller.None? ==> OnePanel(d.stack, d.panels + [panel])
    case _ => true
  }

  lemma ActivateKeeps(d: Desk, w: Window)
    requires Distinct(d.stack) && w in d.stack && OnePanel(d.stack, d.panels) && d.focusedOnMap <= d.sessions
    ensures Inv(Activate(d, w))
  {
    MapDistinct(d.stack, w);
    MapPart(d.stack, d.panels, w);
  }

  lemma {:induction false} PartWithout(stack: seq<Window>, panels: seq<Panel>, w: Window)
    requires Distinct(stack)
    ensures |Part(Without(stack, w), panels, true)| ==
              |Part(stack, panels, true)| - (if w in stack && IsPanel(panels, w) then 1 else 0)
  {
    if stack != [] {
      assert Distinct(stack[1..]);
      PartWithout(stack[1..], panels, w);
      if stack[0] == w {
        forall k | 0 <= k < |stack[1..]| ensures stack[1..][k] != w { assert stack[1..][k] == stack[k + 1]; }
        assert w !in stack[1..];
      } else {
        assert Without(stack, w)[1..] == Without(stack[1..], w);
        assert w in stack <==> w in stack[1..];
      }
    }
  }

  lemma MapPart(stack: seq<Window>, panels: seq<Panel>, w: Window)
    requires Distinct(stack) && w in stack
    ensures |Part(MapElement(stack, w), panels, true)| == |Part(stack, panels, true)|
  {
    PartWithout(stack, panels, w);
    PartAppend(Without(stack, w), [w], panels, true);
    assert |Part([w], panels, true)| == if IsPanel(panels, w) then 1 else 0;
  }

  /** Lowering leaves an application on top, the topmost one, unless nothing
      but panels is mapped. */
  lemma LoweredTop(stack: seq<Window>, panels: seq<Panel>)
    ensures var order := Order(stack, panels, true, None); var apps := Part(stack, panels, false);
      && |order| == |stack|
      && (apps != [] ==> order[|order| - 1] == apps[|apps| - 1] && !IsPanel(panels, apps[|apps| - 1]))
      && (apps == [] ==> order == stack)
  {
    var lower, apps := Part(stack, panels, true), Part(stack, panels, false);
    PartSize(stack, panels);
    PartMembers(stack, panels, false);
    if apps == [] {
      PartAll(stack, panels, true);
      assert lower + apps == stack;
    } else {
      assert apps[|apps| - 1] in apps;
      assert (lower + apps)[|stack| - 1] == apps[|apps| - 1];
    }
  }

  lemma {:induction false} PartAll(stack: seq<Window>, panels: seq<Panel>, panel: bool)
    requires Part(stack, panels, !panel) == []
    ensures Part(stack, panels, panel) == stack
  {
    if stack != [] { PartAll(stack[1..], panels, panel); }
  }

  lemma {:induction false} PartOfPart(stack: seq<Window>, panels: seq<Panel>, p: bool, q: bool)
    ensures Part(Part(stack, panels, p), panels, q) == if p == q then Part(stack, panels, p) else []
  {
    if stack != [] {
      PartOfPart(stack[1..], panels, p, q);
      if IsPanel(panels, stack[0]) == p {
        assert Part(stack, panels, p)[1..] == Part(stack[1..], panels, p);
      } else {
        assert Part(stack, panels, p) == Part(stack[1..], panels, p);
      }
    }
  }

  lemma OrderPanels(stack: seq<Window>, panels: seq<Panel>, lowerPanels: bool, belowTop: Option<Window>)
    ensures |Part(Order(stack, panels, lowerPanels, belowTop), panels, true)| == |Part(stack, panels, true)|
  {
    var lower, apps := Part(stack, panels, true), Part(stack, panels, false);
    PartOfPart(stack, panels, true, true);
    PartOfPart(stack, panels, false, true);
    PartAppend(lower, apps, panels, true);
    var order := if lowerPanels then lower + apps else stack;
    if belowTop.Some? && |order| > 1 && order[|order| - 1] == belowTop.value {
      SwapPart(order, panels);
    }
  }

  lemma SwapPart(order: seq<Window>, panels: seq<Panel>)
    requires |order| > 1
    ensures |Part(SwapTop(order), panels, true)| == |Part(order, panels, true)|
  {
    var n := |order|;
    var rest, x, y := order[..n - 2], order[n - 2], order[n - 1];
    assert order == rest + ([x] + [y]) && SwapTop(order) == rest + ([y] + [x]);
    PartAppend(rest, [x] + [y], panels, true);
    PartAppend(rest, [y] + [x], panels, true);
    PartAppend([x], [y], panels, true);
    PartAppend([y], [x], panels, true);
  }

  lemma PlaceKeeps(d: Desk, lowerPanels: bool, belowTop: Option<Window>)
    requires Distinct(d.stack) && OnePanel(d.stack, d.panels)
    ensures var e := Place(d, lowerPanels, belowTop);
      && Distinct(e.stack) && OnePanel(e.stack, e.panels) && |e.stack| == |d.stack|
      && forall w :: w in e.stack <==> w in d.stack
  {
    OrderPermutes(d.stack, d.panels, lowerPanels, belowTop);
    DistinctPermuted(d.stack, Order(d.stack, d.panels, lowerPanels, belowTop));
    OrderPanels(d.stack, d.panels, lowerPanels, belowTop);
  }

  lemma PartSize(stack: seq<Window>, panels: seq<Panel>)
    ensures |stack| == |Part(stack, panels, true)| + |Part(stack, panels, false)|
  {
    PartSplits(stack, panels);
    assert |multiset(stack)| == |stack|;
  }

  /** Fitting keeps focus on top whether it was there or on an application
      under a panel that has just been mapped. */
  lemma FitKeeps(d: Desk)
    requires Distinct(d.stack) && OnePanel(d.stack, d.panels) && d.focusedOnMap <= d.sessions
    requires FocusOnTop(d) || FocusUnderNewPanel(d)
    ensures Inv(Fit(d))
  {
    PlaceKeeps(d, true, None);
    LoweredTop(d.stack, d.panels);
    if d.focus.Some? { LoweredFocus(d); }
    var lowered := Place(d, true, None);
    var n := |lowered.stack|;
    hide Part, Distinct, Order, PanelSurfaces;
    if d.focus.Some? && d.focus.value in PanelSurfaces(d.panels) && n > 0 && !IsPanel(d.panels, lowered.stack[n - 1]) {
      ActivateKeeps(lowered, lowered.stack[n - 1]);
    }
  }

  /** A focused application is on top of the lowered stack; a focused panel
      is when no application is mapped. */
  lemma LoweredFocus(d: Desk)
    requires FocusOnTop(d) || FocusUnderNewPanel(d)
    requires d.focus.Some?
    ensures var order := Order(d.stack, d.panels, true, None);
      && d.stack != [] && |order| == |d.stack|
      && (d.focus.value !in PanelSurfaces(d.panels) || Part(d.stack, d.panels, false) == [] ==>
            order[|order| - 1].surface == d.focus.value)
  {
    LoweredTop(d.stack, d.panels);
    if FocusOnTop(d) {
      if d.focus.value !in PanelSurfaces(d.panels) { PartTop(d.stack, d.panels); }
    } else {
      LoweredUnderPanel(d.stack, d.panels);
      PartMembers(d.stack, d.panels, false);
      assert d.stack[|d.stack| - 2] in d.stack;
    }
  }

  /** A panel has just been mapped on top of the focused window. */
  predicate FocusUnderNewPanel(d: Desk) {
    var n := |d.stack|;
    && n > 1 && IsPanel(d.panels, d.stack[n - 1])
    && !IsPanel(d.panels, d.stack[n - 2])
    && d.focus == Some(d.stack[n - 2].surface)
  }

  lemma LoweredUnderPanel(stack: seq<Window>, panels: seq<Panel>)
    requires |stack| > 1 && IsPanel(panels, stack[|stack| - 1]) && !IsPanel(panels, stack[|stack| - 2])
    ensures var order := Order(stack, panels, true, None); order != [] && order[|order| - 1] == stack[|stack| - 2]
  {
    var n := |stack|;
    var rest, panel := stack[..n - 1], stack[n - 1];
    assert stack == rest + [panel];
    PartAppend(rest, [panel], panels, false);
    assert Part([panel], panels, false) == [];
    PartTop(rest, panels);
  }

  lemma MapNewKeeps(d: Desk, w: Window)
    requires Inv(d) && Allowed(d, MapWindow(w))
    ensures Inv(MapNew(d, w))
  {
    assert w !in d.stack;
    WithoutAbsent(d.stack, w);
    var first := TakesFocus(d, w);
    var noted := if first && w.session.Some? then d.(focusedOnMap := d.focusedOnMap + {w.session.value}) else d;
    var mapped := noted.(stack := MapElement(noted.stack, w));
    assert mapped.stack == d.stack + [w] && Distinct(mapped.stack);
    hide TakesFocus, Distinct, Part;
    if IsPanel(d.panels, w) {
      MappedPanel(d, w);
      FitKeeps(mapped);
    } else if first {
      PlaceKeeps(mapped, false, None);
      ActivateKeeps(Place(mapped, false, None), w);
    } else {
      PlaceKeeps(mapped, false, Some(w));
    }
  }

  lemma MappedPanel(d: Desk, w: Window)
    requires FocusOnTop(d) && IsPanel(d.panels, w) && OnePanel(d.stack + [w], d.panels)
    ensures var mapped := d.(stack := d.stack + [w]); FocusOnTop(mapped) || FocusUnderNewPanel(mapped)
  {
    PartAppend(d.stack, [w], d.panels, true);
    assert Part([w], d.panels, true) == [w];
    assert Part(d.stack, d.panels, true) == [];
    PartMembers(d.stack, d.panels, true);
    hide Part;
    if d.focus.Some? {
      assert d.stack[|d.stack| - 1] in d.stack;
    }
  }

  lemma ClosedLeaves(d: Desk, w: Window)
    requires Inv(d) && w in d.stack
    ensures var left := d.(stack := Without(d.stack, w));
      && Distinct(left.stack) && OnePanel(left.stack, left.panels)
      && (d.focus.Some? && d.focus.value != w.surface ==> FocusOnTop(left))
  {
    hide Part, Without, Distinct, IsPanel;
    WithoutKeeps(d.stack, w);
    PartWithout(d.stack, d.panels, w);
  }

  lemma ClosedKeeps(d: Desk, surface: Surface)
    requires Inv(d)
    ensures Inv(Closed(d, surface))
  {
    hide Distinct, OnePanel, Without, Find, TopApp, Activate;
    var found := Find(d.stack, surface);
    if found.Some? {
      var w := found.value;
      ClosedLeaves(d, w);
      var left := d.(stack := Without(d.stack, w));
      if left.focus.Some? && left.focus.value != surface {
      } else {
        match TopApp(left.stack, left.panels) {
          case Some(next) => ActivateKeeps(left, next);
          case None => if left.stack != [] { ActivateKeeps(left, left.stack[0]); }
        }
      }
    }
  }

  lemma FewerPanels(panels: seq<Panel>, resource: nat)
    ensures PanelSurfaces(WithoutPanel(panels, resource)) <= PanelSurfaces(panels)
  {
    OtherPanels(panels, resource);
  }

  lemma {:induction false} OtherPanels(panels: seq<Panel>, resource: nat)
    ensures forall p :: p in WithoutPanel(panels, resource) <==> p in panels && p.resource != resource
  {
    if panels != [] { OtherPanels(panels[1..], resource); }
  }

  lemma {:induction false} FewerPanelWindows(stack: seq<Window>, panels: seq<Panel>, fewer: seq<Panel>)
    requires PanelSurfaces(fewer) <= PanelSurfaces(panels)
    ensures |Part(stack, fewer, true)| <= |Part(stack, panels, true)|
  {
    if stack != [] { FewerPanelWindows(stack[1..], panels, fewer); }
  }

  /** Every event keeps keyboard focus on the topmost window or nobody. */
  lemma NextKeeps(d: Desk, e: Event)
    requires Inv(d) && Allowed(d, e)
    ensures Inv(Next(d, e))
  {
    match e {
      case MapWindow(w) => MapNewKeeps(d, w);
      case CloseWindow(surface) => ClosedKeeps(d, surface);
      case Click(under) =>
        if under.Some? && Find(d.stack, under.value).Some? { ActivateKeeps(d, Find(d.stack, under.value).value); }
      case ActivatePanel =>
        if PanelWindow(d.panels, d.stack).Some? { ActivateKeeps(d, PanelWindow(d.panels, d.stack).value); }
      case ActivateSession(s) =>
        var found := TopOfSession(d.stack, s);
        if found.Some? { ActivateKeeps(d, found.value); }
      case RegisterPanel(panel, caller) =>
        if caller.None? { FitKeeps(d.(panels := d.panels + [panel])); }
      case RemovePanel(resource) =>
        FewerPanels(d.panels, resource);
        var left := d.(panels := WithoutPanel(d.panels, resource));
        FewerPanelWindows(d.stack, d.panels, left.panels);
        var own := OwnPanel(d.panels, resource);
        if own.Some? && own.value.surface.Some? {
          ClosedKeeps(left, own.value.surface.value);
        }
      case Relayout =>
      case Attach(s) =>
      case Detach(s) =>
      case AppdGone =>
    }
  }

  // ----- Runs -----

  function Run(d: Desk, events: seq<Event>): Desk
    decreases |events|
  {
    if events == [] then d else Run(Next(d, events[0]), events[1..])
  }

  predicate AllAllowed(d: Desk, events: seq<Event>)
    decreases |events|
  {
    events == [] || (Allowed(d, events[0]) && AllAllowed(Next(d, events[0]), events[1..]))
  }

  /** Whatever happens, keyboard focus is nobody's or the topmost window's. */
  lemma {:induction false} FocusStaysOnTop(d: Desk, events: seq<Event>)
    requires Inv(d) && AllAllowed(d, events)
    ensures Inv(Run(d, events)) && FocusOnTop(Run(d, events))
    decreases |events|
  {
    if events != [] {
      NextKeeps(d, events[0]);
      FocusStaysOnTop(Next(d, events[0]), events[1..]);
    }
  }

  /** The event gives focus to a window that `s` maps. */
  predicate GainsByMapping(d: Desk, e: Event, s: SessionId) {
    e.MapWindow? && e.w.session == Some(s) && d.focus != Some(e.w.surface)
    && Next(d, e).focus == Some(e.w.surface)
  }

  predicate Ends(e: Event, s: SessionId) { e == Detach(s) || e == AppdGone }

  function Gains(d: Desk, events: seq<Event>, s: SessionId): nat
    decreases |events|
  {
    if events == [] then 0
    else (if GainsByMapping(d, events[0], s) then 1 else 0) + Gains(Next(d, events[0]), events[1..], s)
  }

  predicate Attached(events: seq<Event>, s: SessionId) {
    forall i :: 0 <= i < |events| ==> !Ends(events[i], s)
  }

  /** Mapping a window gives it focus only when its session has not had that before. */
  lemma MappingFocus(d: Desk, w: Window, s: SessionId)
    requires Inv(d) && Allowed(d, MapWindow(w)) && w.session == Some(s)
    ensures GainsByMapping(d, MapWindow(w), s) <==> s in d.sessions && s !in d.focusedOnMap && !IsPanel(d.panels, w)
    ensures GainsByMapping(d, MapWindow(w), s) ==> s in MapNew(d, w).focusedOnMap
    ensures !IsPanel(d.panels, w) && !GainsByMapping(d, MapWindow(w), s) ==> MapNew(d, w).focus == d.focus
  {
    if d.focus.Some? {
      assert Mapped(d.stack, d.focus.value) by { assert d.stack[|d.stack| - 1].surface == d.focus.value; }
    }
  }

  /** While a session stays attached, its windows take focus by mapping at
      most once, and never again once they have. */
  lemma {:induction false} FocusOncePerAttachment(d: Desk, events: seq<Event>, s: SessionId)
    requires Inv(d) && AllAllowed(d, events) && Attached(events, s)
    ensures Gains(d, events, s) <= if s in d.focusedOnMap then 0 else 1
    decreases |events|
  {
    if events != [] {
      var e := events[0];
      assert !Ends(e, s);
      NextKeeps(d, e);
      forall i | 0 <= i < |events[1..]| ensures !Ends(events[1..][i], s) { assert events[1..][i] == events[i + 1]; }
      FocusOncePerAttachment(Next(d, e), events[1..], s);
      if e.MapWindow? && e.w.session == Some(s) {
        MappingFocus(d, e.w, s);
      }
      if s in d.focusedOnMap { FocusedStays(d, e, s); }
    }
  }

  lemma FocusedStays(d: Desk, e: Event, s: SessionId)
    requires s in d.focusedOnMap && !Ends(e, s)
    ensures s in Next(d, e).focusedOnMap
  {
  }

  // ----- What is seen after each event -----

  predicate InFront(d: Desk, w: Window) {
    d.stack != [] && d.stack[|d.stack| - 1] == w && d.focus == Some(w.surface)
  }

  /** The windows other than `w` and `gone` are the same, in the same order. */
  ghost predicate OthersKept(before: seq<Window>, after: seq<Window>, w: Option<Window>, gone: Option<Window>) {
    && (forall x :: Some(x) != w && Some(x) != gone ==> (x in after <==> x in before))
    && (forall x, y :: Some(x) != w && Some(y) != w && Some(x) != gone && Some(y) != gone ==>
          (Below(after, x, y) <==> Below(before, x, y)))
  }

  /** `w` was brought in front of all, focused; nothing else changed. */
  ghost predicate BroughtForward(d: Desk, e: Desk, w: Window) {
    w in d.stack && InFront(e, w) && OthersKept(d.stack, e.stack, Some(w), None)
    && e == d.(stack := e.stack, focus := e.focus)
  }

  lemma {:induction false} WithoutOrder(stack: seq<Window>, w: Window, x: Window, y: Window)
    requires x != w && y != w
    ensures Below(Without(stack, w), x, y) <==> Below(stack, x, y)
    ensures x in Without(stack, w) <==> x in stack
  {
    if stack != [] {
      var rest := Without(stack[1..], w);
      WithoutOrder(stack[1..], w, x, y);
      WithoutOrder(stack[1..], w, y, x);
      assert stack == [stack[0]] + stack[1..];
      BelowCons(stack[0], stack[1..], x, y);
      if stack[0] != w { BelowCons(stack[0], rest, x, y); }
    }
  }

  lemma BelowCons(first: Window, rest: seq<Window>, x: Window, y: Window)
    ensures Below([first] + rest, x, y) <==> (first == x && y in rest) || Below(rest, x, y)
  {
    var all := [first] + rest;
    if Below(all, x, y) {
      var i, j :| 0 <= i < j < |all| && all[i] == x && all[j] == y;
      if i == 0 { assert rest[j - 1] == y; } else { assert rest[i - 1] == x && rest[j - 1] == y; }
    }
    if first == x && y in rest {
      var j :| 0 <= j < |rest| && rest[j] == y;
      assert all[0] == x && all[j + 1] == y;
    }
    if Below(rest, x, y) {
      var i, j :| 0 <= i < j < |rest| && rest[i] == x && rest[j] == y;
      assert all[i + 1] == x && all[j + 1] == y;
    }
  }

  lemma BelowSnoc(stack: seq<Window>, last: Window, x: Window, y: Window)
    ensures Below(stack + [last], x, y) <==> Below(stack, x, y) || (x in stack && y == last)
  {
    var all := stack + [last];
    if Below(all, x, y) {
      var i, j :| 0 <= i < j < |all| && all[i] == x && all[j] == y;
      assert stack[i] == x;
      if j < |stack| { assert stack[j] == y; }
    }
    if Below(stack, x, y) {
      var i, j :| 0 <= i < j < |stack| && stack[i] == x && stack[j] == y;
      assert all[i] == x && all[j] == y;
    }
    if x in stack && y == last {
      var i :| 0 <= i < |stack| && stack[i] == x;
      assert all[i] == x && all[|stack|] == y;
    }
  }

  lemma RaisedOrder(stack: seq<Window>, w: Window)
    ensures OthersKept(stack, MapElement(stack, w), Some(w), None)
  {
    hide Below;
    forall x | x != w ensures x in MapElement(stack, w) <==> x in stack { WithoutOrder(stack, w, x, x); }
    forall x, y | x != w && y != w ensures Below(MapElement(stack, w), x, y) <==> Below(stack, x, y) {
      WithoutOrder(stack, w, x, y);
      BelowSnoc(Without(stack, w), w, x, y);
    }
  }

  lemma ActivatedForward(d: Desk, w: Window)
    requires w in d.stack
    ensures BroughtForward(d, Activate(d, w), w)
  {
    RaisedOrder(d.stack, w);
  }

  /** A click brings the window under it forward; anywhere else it takes
      keyboard focus from everything. */
  lemma AfterClick(d: Desk, under: Option<Surface>)
    ensures var e := Next(d, Click(under));
      if under.Some? && Mapped(d.stack, under.value)
      then exists w: Window :: w.surface == under.value && BroughtForward(d, e, w)
      else e == d.(focus := None)
  {
    if under.Some? && Mapped(d.stack, under.value) {
      var w := Find(d.stack, under.value).value;
      ActivatedForward(d, w);
    }
  }

  lemma {:induction false} TopOfSessionIsTopmost(stack: seq<Window>, s: SessionId)
    requires Distinct(stack) && TopOfSession(stack, s).Some?
    ensures forall x: Window :: Below(stack, TopOfSession(stack, s).value, x) ==> x.session != Some(s)
  {
    var n := |stack| - 1;
    var w := TopOfSession(stack, s).value;
    assert stack == stack[..n] + [stack[n]];
    forall x | Below(stack, w, x) ensures x.session != Some(s) {
      BelowSnoc(stack[..n], stack[n], w, x);
      if stack[n].session == Some(s) {
        TopBelowNothing(stack, x);
      } else if Below(stack[..n], w, x) {
        TopOfSessionIsTopmost(stack[..n], s);
      }
    }
  }

  lemma TopBelowNothing(stack: seq<Window>, x: Window)
    requires Distinct(stack) && stack != []
    ensures !Below(stack, stack[|stack| - 1], x)
  {
    var top := stack[|stack| - 1];
    forall i, j | 0 <= i < j < |stack| ensures !(stack[i] == top && stack[j] == x) {
      assert stack[i].surface != top.surface;
    }
  }

  /** Activating a session brings its topmost window forward, if it has one. */
  lemma AfterActivateSession(d: Desk, s: SessionId)
    requires Distinct(d.stack)
    ensures var e := Next(d, ActivateSession(s));
      if exists w: Window :: w in d.stack && w.session == Some(s)
      then exists w: Window :: w.session == Some(s) && BroughtForward(d, e, w)
                       && forall x: Window :: Below(d.stack, w, x) ==> x.session != Some(s)
      else e == d
  {
    var found := TopOfSession(d.stack, s);
    if found.Some? {
      TopOfSessionIsTopmost(d.stack, s);
      ActivatedForward(d, found.value);
    }
  }

  predicate HasWindow(stack: seq<Window>, panel: Panel) { panel.surface.Some? && Mapped(stack, panel.surface.value) }

  lemma {:induction false} PanelWindowIsFirst(panels: seq<Panel>, stack: seq<Window>)
    ensures PanelWindow(panels, stack).None? <==> forall i :: 0 <= i < |panels| ==> !HasWindow(stack, panels[i])
    ensures PanelWindow(panels, stack).Some? ==>
              exists i :: 0 <= i < |panels| && panels[i].surface == Some(PanelWindow(panels, stack).value.surface)
                          && forall j :: 0 <= j < i ==> !HasWindow(stack, panels[j])
  {
    if panels != [] {
      var rest := panels[1..];
      PanelWindowIsFirst(rest, stack);
      if HasWindow(stack, panels[0]) {
        assert panels[0].surface == Some(PanelWindow(panels, stack).value.surface);
      } else {
        assert PanelWindow(panels, stack) == PanelWindow(rest, stack);
        forall i | 0 <= i < |rest| ensures rest[i] == panels[i + 1] {}
        if PanelWindow(rest, stack).Some? {
          var i :| 0 <= i < |rest| && rest[i].surface == Some(PanelWindow(rest, stack).value.surface)
                   && forall j :: 0 <= j < i ==> !HasWindow(stack, rest[j]);
          forall j | 0 <= j < i + 1 ensures !HasWindow(stack, panels[j]) {
            if j > 0 { assert panels[j] == rest[j - 1]; }
          }
          assert panels[i + 1].surface == Some(PanelWindow(panels, stack).value.surface);
        } else {
          forall j | 0 <= j < |panels| ensures !HasWindow(stack, panels[j]) {
            if j > 0 { assert panels[j] == rest[j - 1]; }
          }
        }
      }
    }
  }

  /** Activating the panel brings the window of the first panel that has one
      forward. */
  lemma AfterActivatePanel(d: Desk)
    ensures var e := Next(d, ActivatePanel);
      if exists i :: 0 <= i < |d.panels| && HasWindow(d.stack, d.panels[i])
      then exists i, w: Window :: 0 <= i < |d.panels| && d.panels[i].surface == Some(w.surface) && BroughtForward(d, e, w)
                          && forall j :: 0 <= j < i ==> !HasWindow(d.stack, d.panels[j])
      else e == d
  {
    PanelWindowIsFirst(d.panels, d.stack);
    var found := PanelWindow(d.panels, d.stack);
    if found.Some? {
      ActivatedForward(d, found.value);
      var i :| 0 <= i < |d.panels| && d.panels[i].surface == Some(found.value.surface)
               && forall j :: 0 <= j < i ==> !HasWindow(d.stack, d.panels[j]);
      assert d.panels[i].surface == Some(found.value.surface) && BroughtForward(d, Next(d, ActivatePanel), found.value);
    }
  }

  /** Sessions come and go without a change on the desk, and a session cannot
      register a panel. */
  lemma AfterConnections(d: Desk, s: SessionId, panel: Panel)
    ensures Next(d, Attach(s)) == d.(sessions := d.sessions + {s})
    ensures Next(d, Detach(s)) == d.(sessions := d.sessions - {s}, focusedOnMap := d.focusedOnMap - {s})
    ensures Next(d, AppdGone) == d.(sessions := {}, focusedOnMap := {})
    ensures Next(d, Relayout) == d
    ensures Next(d, RegisterPanel(panel, Some(s))) == d
  {
  }

  lemma {:induction false} TopAppIsTopmost(stack: seq<Window>, panels: seq<Panel>)
    requires Distinct(stack) && TopApp(stack, panels).Some?
    ensures forall x: Window :: Below(stack, TopApp(stack, panels).value, x) ==> IsPanel(panels, x)
  {
    var n := |stack| - 1;
    var w := TopApp(stack, panels).value;
    assert stack == stack[..n] + [stack[n]];
    forall x | Below(stack, w, x) ensures IsPanel(panels, x) {
      BelowSnoc(stack[..n], stack[n], w, x);
      if !IsPanel(panels, stack[n]) {
        TopBelowNothing(stack, x);
      } else if Below(stack[..n], w, x) {
        TopAppIsTopmost(stack[..n], panels);
      }
    }
  }

  /** The windows of `d` without `w`. */
  lemma WithoutKept(stack: seq<Window>, w: Window)
    requires Distinct(stack)
    ensures OthersKept(stack, Without(stack, w), None, Some(w)) && w !in Without(stack, w)
  {
    hide Below;
    WithoutKeeps(stack, w);
    forall x, y | x != w && y != w ensures Below(Without(stack, w), x, y) <==> Below(stack, x, y) {
      WithoutOrder(stack, w, x, y);
    }
  }

  /** A closed window is gone. If it had the keyboard, or nothing had, the
      topmost application comes forward; without one the lowest window does,
      and without any nobody has the keyboard. */
  lemma AfterClose(d: Desk, surface: Surface)
    requires Distinct(d.stack)
    ensures var e := Next(d, CloseWindow(surface));
      if !Mapped(d.stack, surface) then e == d
      else exists w: Window :: w in d.stack && w.surface == surface && CloseSeen(d, e, w)
  {
    var found := Find(d.stack, surface);
    if found.Some? {
      CloseIsSeen(d, found.value);
    }
  }

  ghost predicate CloseSeen(d: Desk, e: Desk, w: Window) {
    var rest := Without(d.stack, w);
    && OthersKept(d.stack, rest, None, Some(w)) && w !in rest
    && e == d.(stack := e.stack, focus := e.focus)
    && (if d.focus.Some? && d.focus.value != w.surface then e.stack == rest && e.focus == d.focus
        else if rest == [] then e.stack == [] && e.focus == None
        else exists next :: BroughtForward(d.(stack := rest), e, next)
               && if exists x: Window :: x in rest && !IsPanel(d.panels, x)
                  then !IsPanel(d.panels, next) && forall x: Window :: Below(rest, next, x) ==> IsPanel(d.panels, x)
                  else next == rest[0])
  }

  lemma CloseIsSeen(d: Desk, w: Window)
    requires Distinct(d.stack) && w in d.stack && Find(d.stack, w.surface) == Some(w)
    ensures CloseSeen(d, Closed(d, w.surface), w)
  {
    var rest := Without(d.stack, w);
    WithoutKept(d.stack, w);
    WithoutKeeps(d.stack, w);
    hide Without, OthersKept, Below;
    var left := d.(stack := rest);
    if rest != [] && !(d.focus.Some? && d.focus.value != w.surface) {
      var top := TopApp(rest, d.panels);
      var next := if top.Some? then top.value else rest[0];
      ActivatedForward(left, next);
      if top.Some? { TopAppIsTopmost(rest, d.panels); }
      assert Closed(d, w.surface) == Activate(left, next);
      var e := Closed(d, w.surface);
      assert BroughtForward(left, e, next);
    }
  }

  /** A new window that takes focus is in front; one that does not goes right
      under the window in front, which keeps the keyboard; a panel's goes to
      the bottom. */
  lemma AfterMap(d: Desk, w: Window)
    requires Inv(d) && Allowed(d, MapWindow(w))
    ensures var e := Next(d, MapWindow(w));
      var n := |d.stack|;
      && e.panels == d.panels && e.sessions == d.sessions
      && (if IsPanel(d.panels, w) then e.stack == [w] + d.stack && e.focus == d.focus
          else if TakesFocus(d, w) then e.stack == d.stack + [w] && e.focus == Some(w.surface)
          else e.focus == d.focus && e.stack == if n == 0 then [w] else d.stack[..n - 1] + [w] + [d.stack[n - 1]])
  {
    NotMappedNotIn(d.stack, w);
    WithoutAbsent(d.stack, w);
    hide Part, Distinct, Without, Mapped, TakesFocus;
    if IsPanel(d.panels, w) {
      NotedMapped(d, w);
    } else if TakesFocus(d, w) {
      WithoutLast(d.stack, w);
    } else if d.stack != [] {
      NewWindowBelowTop(d.stack, d.panels, w);
    }
  }

  lemma WithoutLast(stack: seq<Window>, w: Window)
    requires w !in stack
    ensures MapElement(stack + [w], w) == stack + [w]
  {
    WithoutAbsent(stack, w);
    WithoutAppend(stack, [w], w);
    assert Without([w], w) == [];
  }

  /** Noting which session took focus changes nothing a panel's fitting sees. */
  lemma NotedMapped(d: Desk, w: Window)
    requires FocusOnTop(d) && IsPanel(d.panels, w) && OnePanel(d.stack + [w], d.panels)
    ensures forall noted: set<SessionId> ::
              Fit(d.(stack := d.stack + [w], focusedOnMap := noted)) == d.(stack := [w] + d.stack, focusedOnMap := noted)
  {
    forall noted: set<SessionId>
      ensures Fit(d.(stack := d.stack + [w], focusedOnMap := noted)) == d.(stack := [w] + d.stack, focusedOnMap := noted)
    {
      PanelMapped(d.(focusedOnMap := noted), w);
    }
  }

  lemma PartOne(w: Window, panels: seq<Panel>)
    ensures Part([w], panels, true) == (if IsPanel(panels, w) then [w] else [])
    ensures Part([w], panels, false) == (if IsPanel(panels, w) then [] else [w])
  {
    assert [w][1..] == [];
  }

  lemma PanelSurfaceIs(panels: seq<Panel>, stack: seq<Window>, w: Window)
    ensures forall x :: IsPanel(panels, x) <==> x.surface in PanelSurfaces(panels)
  {
  }

  lemma PanelMapped(d: Desk, w: Window)
    requires FocusOnTop(d) && IsPanel(d.panels, w) && OnePanel(d.stack + [w], d.panels)
    ensures Fit(d.(stack := d.stack + [w])) == d.(stack := [w] + d.stack)
  {
    PartOne(w, d.panels);
    hide Part, IsPanel;
    PartAppend(d.stack, [w], d.panels, true);
    PartAppend(d.stack, [w], d.panels, false);
    assert |Part(d.stack, d.panels, true)| == 0;
    PartMembers(d.stack, d.panels, true);
    PartAll(d.stack, d.panels, false);
    PanelSurfaceIs(d.panels, d.stack, w);
    assert Order(d.stack + [w], d.panels, true, None) == [w] + d.stack;
    if d.focus.Some? { assert d.stack[|d.stack| - 1] in d.stack; }
  }

  lemma NotMappedNotIn(stack: seq<Window>, w: Window)
    requires !Mapped(stack, w.surface)
    ensures w !in stack
  {
  }

  /** A registered panel goes beneath the applications with those before it,
      and hands the keyboard to the application now in front. */
  lemma AfterRegister(d: Desk, panel: Panel)
    requires Distinct(d.stack)
    ensures var e := Next(d, RegisterPanel(panel, None));
      && e == d.(panels := d.panels + [panel], stack := e.stack, focus := e.focus)
      && multiset(e.stack) == multiset(d.stack)
      && (forall i, j :: 0 <= i < j < |e.stack| ==>
            (IsPanel(e.panels, e.stack[j]) ==> IsPanel(e.panels, e.stack[i]))
            && (IsPanel(e.panels, e.stack[i]) == IsPanel(e.panels, e.stack[j]) ==> Below(d.stack, e.stack[i], e.stack[j])))
      && var n := |e.stack|;
         (if d.focus.Some? && d.focus.value in PanelSurfaces(e.panels) && n > 0 && !IsPanel(e.panels, e.stack[n - 1])
          then InFront(e, e.stack[n - 1])
          else e.focus == d.focus)
  {
    var panels := d.panels + [panel];
    var order := Order(d.stack, panels, true, None);
    OrderPermutes(d.stack, panels, true, None);
    DistinctPermuted(d.stack, order);
    FittedDesk(d.(panels := panels));
    hide Order, IsPanel, Below, Fit, Distinct;
    forall i, j | 0 <= i < j < |order|
      ensures IsPanel(panels, order[j]) ==> IsPanel(panels, order[i])
      ensures IsPanel(panels, order[i]) == IsPanel(panels, order[j]) ==> Below(d.stack, order[i], order[j])
    {
      LoweringIsStable(d.stack, panels, i, j);
    }
  }

  lemma FittedDesk(d: Desk)
    requires Distinct(Order(d.stack, d.panels, true, None))
    ensures var order := Order(d.stack, d.panels, true, None);
      var n := |order|;
      Fit(d) == d.(stack := order,
                   focus := if d.focus.Some? && d.focus.value in PanelSurfaces(d.panels) && n > 0 && !IsPanel(d.panels, order[n - 1])
                            then Some(order[n - 1].surface) else d.focus)
  {
    var order := Order(d.stack, d.panels, true, None);
    if order != [] {
      var n := |order| - 1;
      LastNotBefore(order);
      WithoutLast(order[..n], order[n]);
      assert order == order[..n] + [order[n]];
    }
  }

  lemma LastNotBefore(stack: seq<Window>)
    requires Distinct(stack) && stack != []
    ensures stack[|stack| - 1] !in stack[..|stack| - 1]
  {
    var n := |stack| - 1;
    forall i | 0 <= i < n ensures stack[..n][i] != stack[n] { assert stack[i].surface != stack[n].surface; }
  }

  /** A panel that is removed takes its window along, as if that were closed. */
  lemma AfterRemovePanel(d: Desk, resource: nat)
    ensures var e := Next(d, RemovePanel(resource));
      if forall p :: p in d.panels ==> p.resource != resource then e == d
      else
        && (forall p :: p in e.panels <==> p in d.panels && p.resource != resource)
        && exists p :: p in d.panels && p.resource == resource
             && e == if p.surface.Some? then Next(d.(panels := e.panels), CloseWindow(p.surface.value)) else d.(panels := e.panels)
  {
    OtherPanels(d.panels, resource);
    OwnPanelIs(d.panels, resource);
    var own := OwnPanel(d.panels, resource);
    if own.Some? {
      var p, e := own.value, Next(d, RemovePanel(resource));
      ClosedPanels(d.(panels := WithoutPanel(d.panels, resource)), p);
      assert e.panels == WithoutPanel(d.panels, resource);
      assert p in d.panels && p.resource == resource
        && e == if p.surface.Some? then Next(d.(panels := e.panels), CloseWindow(p.surface.value)) else d.(panels := e.panels);
    }
  }

  lemma ClosedPanels(d: Desk, p: Panel)
    ensures p.surface.Some? ==> Closed(d, p.surface.value).panels == d.panels
  {
  }

  lemma {:induction false} OwnPanelIs(panels: seq<Panel>, resource: nat)
    ensures OwnPanel(panels, resource).Some? <==> exists p :: p in panels && p.resource == resource
    ensures OwnPanel(panels, resource).Some? ==>
              OwnPanel(panels, resource).value in panels && OwnPanel(panels, resource).value.resource == resource
  {
    if panels != [] {
      OwnPanelIs(panels[1..], resource);
      assert panels == [panels[0]] + panels[1..];
      if panels[0].resource == resource { assert panels[0] in panels; }
    }
  }

  // ----- The compositor's state, changed in place -----

  lemma MapOneMore(stack: seq<Window>, order: seq<Window>, i: nat)
    requires Distinct(order) && i < |order|
    ensures MapElement(Keep(stack, order[..i]) + order[..i], order[i]) == Keep(stack, order[..i + 1]) + order[..i + 1]
  {
    var w := order[i];
    WithoutAppend(Keep(stack, order[..i]), order[..i], w);
    KeepMore(stack, order[..i], w);
    WithoutAbsent(order[..i], w);
    assert order[..i + 1] == order[..i] + [w];
  }

  class WeftCompositorState {
    var stack: seq<Window>
    var focus: Option<Surface>
    var panels: seq<Panel>
    var sessions: set<SessionId>
    var focusedOnMap: set<SessionId>

    constructor ()
      ensures View() == Desk([], None, [], {}, {})
    {
      stack, focus, panels, sessions, focusedOnMap := [], None, [], {}, {};
    }

    function View(): Desk
      reads this
    {
      Desk(stack, focus, panels, sessions, focusedOnMap)
    }

    /** Maps `order`, window by window; each comes on top, and mapping all of
        them leaves exactly that order. */
    method MapAll(order: seq<Window>)
      requires Distinct(order) && forall w :: w in stack ==> w in order
      modifies this`stack
      ensures stack == order
    {
      hide Keep, MapElement, Distinct;
      var i := 0;
      KeepNone(stack);
      assert stack == Keep(stack, order[..0]) + order[..0];
      while i < |order|
        invariant i <= |order|
        invariant stack == Keep(old(stack), order[..i]) + order[..i]
      {
        var w := order[i];
        MapOneMore(old(stack), order, i);
        stack := MapElement(stack, w);
        i := i + 1;
      }
      assert order[..|order|] == order;
      KeepOthers(old(stack), order);
    }

    /** Places every window; see `Order`. */
    method PlaceWindows(lowerPanels: bool, belowTop: Option<Window>)
      requires Distinct(stack)
      modifies this`stack
      ensures View() == Place(old(View()), lowerPanels, belowTop)
      ensures multiset(stack) == multiset(old(stack)) && Distinct(stack)
    {
      var order := stack;
      if lowerPanels {
        order := Part(order, panels, true) + Part(order, panels, false);
      }
      if belowTop.Some? && |order| > 1 && order[|order| - 1] == belowTop.value {
        order := SwapTop(order);
      }
      OrderPermutes(stack, panels, lowerPanels, belowTop);
      DistinctPermuted(stack, order);
      MapAll(order);
    }

    method ActivateWindow(w: Window)
      modifies this`stack, this`focus
      ensures View() == Activate(old(View()), w)
    {
      stack := MapElement(stack, w);
      focus := Some(w.surface);
    }

    method FitPanels()
      requires Distinct(stack)
      modifies this`stack, this`focus
      ensures View() == Fit(old(View()))
    {
      PlaceWindows(true, None);
      var onPanel := focus.Some? && focus.value in PanelSurfaces(panels);
      if onPanel && stack != [] && !IsPanel(panels, stack[|stack| - 1]) {
        ActivateWindow(stack[|stack| - 1]);
      }
    }

    /** Whether a window a session maps now may take focus; it is noted. */
    method TakeFocusOnMap(session: SessionId) returns (first: bool)
      modifies this`focusedOnMap
      ensures first <==> session in sessions && session !in old(focusedOnMap)
      ensures focusedOnMap == if first then old(focusedOnMap) + {session} else old(focusedOnMap)
    {
      first := session in sessions && session !in focusedOnMap;
      if first { focusedOnMap := focusedOnMap + {session}; }
    }

    method MapNewWindow(w: Window)
      requires Inv(View()) && Allowed(View(), MapWindow(w))
      modifies this`stack, this`focus, this`focusedOnMap
      ensures View() == MapNew(old(View()), w) && Inv(View())
    {
      MapNewKeeps(View(), w);
      MapFresh(stack, w);
      hide Distinct, Part, Order, PanelSurfaces, MapElement, Mapped, Inv, Allowed;
      var first;
      match w.session {
        case Some(s) => first := TakeFocusOnMap(s);
        case None => first := forall x :: x in stack ==> x.session.Some?;
      }
      stack := MapElement(stack, w);
      if IsPanel(panels, w) {
        FitPanels();
      } else if first {
        PlaceWindows(false, None);
        ActivateWindow(w);
      } else {
        PlaceWindows(false, Some(w));
      }
    }

    method WindowClosed(surface: Surface)
      modifies this`stack, this`focus
      ensures View() == Closed(old(View()), surface)
    {
      var found := Find(stack, surface);
      if found.None? { return; }
      stack := Without(stack, found.value);
      var hadFocus := focus.None? || focus.value == surface;
      if !hadFocus { return; }
      var next := TopApp(stack, panels);
      if next.None? && stack != [] { next := Some(stack[0]); }
      match next {
        case Some(w) => ActivateWindow(w);
        case None => focus := None;
      }
    }

    /** One event from a client, the user or weft-appd. */
    method Handle(e: Event)
      requires Inv(View()) && Allowed(View(), e)
      modifies this
      ensures View() == Next(old(View()), e) && Inv(View())
    {
      NextKeeps(View(), e);
      match e {
        case MapWindow(w) => MapNewWindow(w);
        case CloseWindow(surface) => WindowClosed(surface);
        case Click(under) =>
          var w := if under.Some? then Find(stack, under.value) else None;
          if w.Some? { ActivateWindow(w.value); } else { focus := None; }
        case ActivatePanel =>
          var w := PanelWindow(panels, stack);
          if w.Some? { ActivateWindow(w.value); }
        case ActivateSession(s) =>
          var w := TopOfSession(stack, s);
          if w.Some? { ActivateWindow(w.value); }
        case RegisterPanel(panel, caller) =>
          if caller.None? {
            panels := panels + [panel];
            FitPanels();
          }
        case RemovePanel(resource) =>
          var own := OwnPanel(panels, resource);
          if own.Some? {
            panels := WithoutPanel(panels, resource);
            if own.value.surface.Some? { ClosedDistinct(View(), own.value.surface.value); WindowClosed(own.value.surface.value); }
            PlaceWindows(false, None);
          }
        case Relayout => PlaceWindows(false, None);
        case Attach(s) => sessions := sessions + {s};
        case Detach(s) => sessions, focusedOnMap := sessions - {s}, focusedOnMap - {s};
        case AppdGone => sessions, focusedOnMap := {}, {};
      }
    }
  }

  lemma MapFresh(stack: seq<Window>, w: Window)
    requires Distinct(stack) && !Mapped(stack, w.surface)
    ensures Distinct(MapElement(stack, w)) && MapElement(stack, w) == stack + [w]
  {
    WithoutAbsent(stack, w);
  }

  lemma ClosedDistinct(d: Desk, surface: Surface)
    requires Distinct(d.stack)
    ensures Distinct(Closed(d, surface).stack)
  {
    var found := Find(d.stack, surface);
    if found.Some? {
      WithoutKeeps(d.stack, found.value);
      var left := d.(stack := Without(d.stack, found.value));
      var next := TopApp(left.stack, left.panels);
      var w := if next.Some? then next.value else if left.stack != [] then left.stack[0] else found.value;
      if left.stack != [] {
        MapDistinct(left.stack, w);
      }
    }
  }

  lemma MapDistinct(stack: seq<Window>, w: Window)
    requires Distinct(stack) && w in stack
    ensures Distinct(MapElement(stack, w))
  {
    WithoutKeeps(stack, w);
    var rest := Without(stack, w);
    forall i | 0 <= i < |rest| ensures rest[i].surface != w.surface {
      assert rest[i] in rest;
      var j :| 0 <= j < |stack| && stack[j] == rest[i];
      var k :| 0 <= k < |stack| && stack[k] == w;
    }
  }
}
