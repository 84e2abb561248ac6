/** Every run of weft-appd's sessions: client requests, the dispatch of a
    launch, and one supervisor a session, in any order. */
module SessionRuns {
  import opened Options
  import opened Sessions

  /** How far a session's launch, supervisor or settling has got. */
  datatype Phase =
    | Dispatching   // launched, no stop sender registered yet
    | Unstarted     // registered, no process started
    | Told          // no runtime is configured: stopped, not yet reported
    | AwaitRuntime
    | AwaitShell
    | Presenting    // the UI host is ready
    | Serving
    | Closing       // the application was asked to close
    | Settling
    | Ending        // Stopping is reported, the processes are being ended
    | Done

  /** What every client is told of a session. */
  datatype Note = AppReady | NowStopping | NowStopped

  datatype Message = Message(id: Id, note: Note)

  datatype System = System(registry: Registry, phases: map<Id, Phase>, log: seq<Message>)

  const Start := System(Registry(0, map[], map[], {}), map[], [])

  datatype Event =
    | LaunchApp
    | RegisterAbort(id: Id)
    | NoRuntime(id: Id)
    | TellStopped(id: Id)
    | StopUnstarted(id: Id)
    | OpenRelay(id: Id)
    | RuntimeReady(id: Id)
    | ShellReady(id: Id)
    | Fail(id: Id)                       // an exit, a failure to start, a timeout
    | TakeStop(id: Id, asked: bool)      // asked: the compositor could ask the app
    | Check(id: Id)
    | Decline(id: Id)
    | BeginSettle(id: Id)
    | EndSettle(id: Id)
    | TerminateApp(id: Id, force: bool)
    | RelayGone(id: Id)

  function PhaseOf(s: System, id: Id): Option<Phase> { if id in s.phases then Some(s.phases[id]) else None }

  function To(s: System, id: Id, p: Phase): System { s.(phases := s.phases[id := p]) }

  function Tell(s: System, id: Id, note: Note): System { s.(log := s.log + [Message(id, note)]) }

  function Change(s: System, r: Registry): System { s.(registry := r) }

  /** The session is stopped and its stop sender dropped, in one step. */
  function Retired(r: Registry, id: Id): Registry {
    WithState(r, id, Stopped).(stops := r.stops - {id})
  }

  function Next(s: System, e: Event): System {
    var r := s.registry;
    match e
    case LaunchApp => Change(To(s, r.next + 1, Dispatching), Launched(r))
    case RegisterAbort(id) =>
      if PhaseOf(s, id) == Some(Dispatching) then Change(To(s, id, Unstarted), r.(stops := r.stops[id := []])) else s
    case NoRuntime(id) =>
      if PhaseOf(s, id) == Some(Unstarted) then Change(To(s, id, Told), Retired(r, id)) else s
    case TellStopped(id) =>
      if PhaseOf(s, id) == Some(Told) then Tell(To(s, id, Done), id, NowStopped) else s
    case StopUnstarted(id) =>
      if PhaseOf(s, id) == Some(Unstarted) then Tell(Change(To(s, id, Done), Retired(r, id)), id, NowStopped) else s
    case OpenRelay(id) =>
      if PhaseOf(s, id) == Some(Unstarted) then Change(To(s, id, AwaitRuntime), r.(relays := r.relays + {id})) else s
    case RuntimeReady(id) => if PhaseOf(s, id) == Some(AwaitRuntime) then To(s, id, AwaitShell) else s
    case ShellReady(id) => if PhaseOf(s, id) == Some(AwaitShell) then To(s, id, Presenting) else s
    case Fail(id) =>
      if (PhaseOf(s, id) == Some(AwaitRuntime) || PhaseOf(s, id) == Some(AwaitShell) || PhaseOf(s, id) == Some(Serving) || PhaseOf(s, id) == Some(Closing)) then To(s, id, Settling) else s
    case TakeStop(id, asked) =>
      if id in r.stops && r.stops[id] != [] then
        var taken := Change(s, r.(stops := r.stops[id := r.stops[id][1..]]));
        match PhaseOf(s, id)
        case Some(AwaitRuntime) => To(taken, id, Settling)
        case Some(AwaitShell) => To(taken, id, Settling)
        case Some(Serving) => To(taken, id, if r.stops[id][0] == Close && asked then Closing else Settling)
        case Some(Closing) => To(taken, id, if r.stops[id][0] == Close then Closing else Settling)
        case _ => s
      else s
    case Check(id) =>
      if PhaseOf(s, id) == Some(Presenting) then
        if StateOf(r, id) == Some(Stopping) then To(s, id, Settling)
        else if id in r.stops && r.stops[id] != [] then
          Change(To(s, id, Settling), r.(stops := r.stops[id := r.stops[id][1..]]))
        else Tell(Change(To(s, id, Serving), WithState(r, id, Running)), id, AppReady)
      else s
    case Decline(id) => if PhaseOf(s, id) == Some(Closing) then To(s, id, Serving) else s
    case BeginSettle(id) =>
      if PhaseOf(s, id) == Some(Settling) then
        if StateOf(r, id) == Some(Stopping) then To(s, id, Ending)
        else Tell(Change(To(s, id, Ending), WithState(r, id, Stopping)), id, NowStopping)
      else s
    case EndSettle(id) =>
      if PhaseOf(s, id) == Some(Ending) then
        Tell(Change(To(s, id, Done), Retired(r.(relays := r.relays - {id}), id)), id, NowStopped)
      else s
    case TerminateApp(id, force) =>
      var (after, state) := Terminated(r, id, force);
      if state == Some(Stopping) && StateOf(r, id) != Some(Stopping) then Tell(Change(s, after), id, NowStopping)
      else Change(s, after)
    case RelayGone(id) => Change(s, r.(relays := r.relays - {id}))
  }

  function After(s: System, events: seq<Event>): System
    decreases |events|
  {
    if events == [] then s else After(Next(s, events[0]), events[1..])
  }

  // ----- One session -----

  function Notes(log: seq<Message>, id: Id): seq<Note> {
    if log == [] then []
    else Notes(log[..|log| - 1], id) + (if log[|log| - 1].id == id then [log[|log| - 1].note] else [])
  }

  /** What there is of one session. */
  datatype Session = Session(
    known: bool,
    state: Option<Kind>,
    queue: Option<seq<Stop>>,
    relay: bool,
    phase: Option<Phase>,
    notes: seq<Note>)

  function Of(s: System, id: Id): Session {
    Session(1 <= id <= s.registry.next, StateOf(s.registry, id),
            if id in s.registry.stops then Some(s.registry.stops[id]) else None,
            id in s.registry.relays, PhaseOf(s, id), Notes(s.log, id))
  }

  /** At most one AppReady, then at most one Stopping, then at most one Stopped. */
  predicate Orderly(notes: seq<Note>) {
    (notes == [] || notes == [AppReady] || notes == [NowStopping] || notes == [AppReady, NowStopping] || notes == [NowStopped] || notes == [NowStopping, NowStopped] || notes == [AppReady, NowStopping, NowStopped])
  }

  /** A stop queue without a Force has room for one. */
  predicate QueueOk(queue: seq<Stop>) { |queue| <= STOP_QUEUE && (Force !in queue ==> |queue| <= 1) }

  predicate Supervised(o: Session) {
    o.phase.Some? && !o.phase.value.Dispatching? && !o.phase.value.Told? && !o.phase.value.Done?
  }

  /** A terminate request came between the launch and the registration of the
      stop sender, and took the session from the registry. */
  predicate LostInGap(o: Session) {
    o.phase.Some? && !o.phase.value.Told? && !o.phase.value.Done? && o.state == None
  }

  /** The states a session can be in at each phase. */
  predicate StateFits(o: Session) {
    match o.phase
    case None => o.state == None
    case Some(Dispatching) => (o.state == Some(Starting) || o.state == None)
    case Some(Unstarted) => (o.state == Some(Starting) || o.state == Some(Stopping) || o.state == None)
    case Some(AwaitRuntime) => (o.state == Some(Starting) || o.state == Some(Stopping) || o.state == None)
    case Some(AwaitShell) => (o.state == Some(Starting) || o.state == Some(Stopping) || o.state == None)
    case Some(Presenting) => (o.state == Some(Starting) || o.state == Some(Stopping) || o.state == None)
    case Some(Serving) => (o.state == Some(Running) || o.state == Some(Stopping) || o.state == None)
    case Some(Closing) => (o.state == Some(Running) || o.state == Some(Stopping) || o.state == None)
    case Some(Settling) => (o.state == Some(Starting) || o.state == Some(Running) || o.state == Some(Stopping) || o.state == None)
    case Some(Ending) => (o.state == Some(Stopping) || o.state == None)
    case Some(Told) => (o.state == Some(Stopped) || o.state == None)
    case Some(Done) => (o.state == Some(Stopped) || o.state == None)
  }

  /** What clients have been told of a session that was not lost. */
  predicate NotesFit(o: Session) {
    match o.phase
    case None => o.notes == []
    case Some(Told) => (o.notes == [] || o.notes == [NowStopping])
    case Some(Done) => (o.notes == [NowStopped] || o.notes == [NowStopping, NowStopped] || o.notes == [AppReady, NowStopping, NowStopped])
    case Some(p) =>
      match o.state
      case Some(Starting) => o.notes == []
      case Some(Running) => o.notes == [AppReady]
      case _ =>
        if (p == Serving || p == Closing) then o.notes == [AppReady, NowStopping]
        else if (p == Settling || p == Ending) then (o.notes == [NowStopping] || o.notes == [AppReady, NowStopping])
        else o.notes == [NowStopping]
  }

  predicate Fine(o: Session) {
    && (o.known <==> o.phase.Some?)
    && (o.queue.Some? <==> Supervised(o))
    && (o.queue.Some? ==> QueueOk(o.queue.value))
    && (o.relay ==> Supervised(o) && o.phase != Some(Unstarted))
    && StateFits(o)
    && (o.phase == None || o.phase == Some(Dispatching) ==> o.notes == [])
    && (o.phase == Some(Done) ==> o.notes != [] && o.notes[|o.notes| - 1] == NowStopped)
  }

  ghost predicate Inv(s: System) {
    forall id :: Fine(Of(s, id)) && (Of(s, id).state.Some? ==> NotesFit(Of(s, id)))
  }

  lemma NotesTold(log: seq<Message>, id: Id, note: Note, j: Id)
    ensures Notes(log + [Message(id, note)], j) == Notes(log, j) + if id == j then [note] else []
  {
    assert (log + [Message(id, note)])[..|log|] == log;
  }

  predicate About(e: Event, id: Id) { !e.LaunchApp? && e.id == id }

  lemma TerminateStays(s: System, id: Id, force: bool, other: Id)
    requires other != id
    ensures Of(Next(s, TerminateApp(id, force)), other) == Of(s, other)
  {
    hide Notes;
    NotesTold(s.log, id, NowStopping, other);
  }

  lemma SettlingStays(s: System, e: Event, id: Id)
    requires (e.BeginSettle? || e.EndSettle? || e.Check? || e.TakeStop?) && e.id != id
    ensures Of(Next(s, e), id) == Of(s, id)
  {
    hide Notes;
    NotesTold(s.log, e.id, AppReady, id);
    NotesTold(s.log, e.id, NowStopping, id);
    NotesTold(s.log, e.id, NowStopped, id);
  }

  lemma StartingStays(s: System, e: Event, id: Id)
    requires !e.LaunchApp? && !e.TerminateApp? && !e.BeginSettle? && !e.EndSettle? && !e.Check? && !e.TakeStop?
    requires e.id != id
    ensures Of(Next(s, e), id) == Of(s, id)
  {
    hide Notes;
    NotesTold(s.log, e.id, NowStopped, id);
  }

  /** An event about another session changes nothing of this one. */
  lemma OthersStay(s: System, e: Event, id: Id)
    requires !e.LaunchApp? && e.id != id
    ensures Of(Next(s, e), id) == Of(s, id)
  {
    hide Of, Next;
    match e
    case TerminateApp(other, force) => TerminateStays(s, other, force, id);
    case BeginSettle(_) => SettlingStays(s, e, id);
    case EndSettle(_) => SettlingStays(s, e, id);
    case Check(_) => SettlingStays(s, e, id);
    case TakeStop(_, _) => SettlingStays(s, e, id);
    case _ => StartingStays(s, e, id);
  }

  /** A launch adds a session, and may forget ones that stopped. */
  lemma LaunchAround(s: System, id: Id)
    ensures var o, p := Of(s, id), Of(Next(s, LaunchApp), id);
      if id == s.registry.next + 1 then
        p == Session(true, Some(Starting), o.queue, o.relay, Some(Dispatching), o.notes)
      else
        p == o || (o.state == Some(Stopped) && p == o.(state := None))
  {
  }

  /** What one event may do to the session it is about. */
  predicate Moves(o: Session, p: Session, terminated: bool) {
    && Fine(p)
    && Rank(o) <= Rank(p)
    && (NotesFit(o) && !LostInGap(o) ==> LostInGap(p) || NotesFit(p))
    && (LostInGap(p) && !LostInGap(o) ==> o.phase == Some(Dispatching) && terminated)
    && (Forced(o) ==> Forced(p))
  }

  lemma OwnTerminate(s: System, id: Id, force: bool)
    requires Fine(Of(s, id))
    ensures Moves(Of(s, id), Of(Next(s, TerminateApp(id, force)), id), true)
  {
    hide Notes;
    NotesTold(s.log, id, NowStopping, id);
  }

  lemma OwnTakeStop(s: System, id: Id, asked: bool)
    requires Fine(Of(s, id))
    ensures Moves(Of(s, id), Of(Next(s, TakeStop(id, asked)), id), false)
  {
    hide Notes;
  }

  lemma OwnCheck(s: System, id: Id)
    requires Fine(Of(s, id))
    ensures Moves(Of(s, id), Of(Next(s, Check(id)), id), false)
  {
    hide Notes;
    NotesTold(s.log, id, AppReady, id);
  }

  lemma OwnSettle(s: System, e: Event)
    requires (e.BeginSettle? || e.EndSettle?) && Fine(Of(s, e.id))
    ensures Moves(Of(s, e.id), Of(Next(s, e), e.id), false)
  {
    hide Notes;
    NotesTold(s.log, e.id, NowStopping, e.id);
    NotesTold(s.log, e.id, NowStopped, e.id);
  }

  lemma OwnRetire(s: System, e: Event)
    requires (e.NoRuntime? || e.TellStopped? || e.StopUnstarted?) && Fine(Of(s, e.id))
    ensures Moves(Of(s, e.id), Of(Next(s, e), e.id), false)
  {
    hide Notes;
    NotesTold(s.log, e.id, NowStopped, e.id);
  }

  lemma OwnRegister(s: System, e: Event)
    requires e.RegisterAbort? || e.OpenRelay? || e.RelayGone?
    requires Fine(Of(s, e.id))
    ensures Moves(Of(s, e.id), Of(Next(s, e), e.id), false)
  {
    hide Notes;
  }

  lemma OwnProgress(s: System, e: Event)
    requires e.RuntimeReady? || e.ShellReady? || e.Fail? || e.Decline?
    requires Fine(Of(s, e.id))
    ensures Moves(Of(s, e.id), Of(Next(s, e), e.id), false)
  {
    hide Notes;
  }

  /** What an event does to the session it is about. */
  lemma OwnStep(s: System, e: Event)
    requires !e.LaunchApp? && Fine(Of(s, e.id))
    ensures Moves(Of(s, e.id), Of(Next(s, e), e.id), e.TerminateApp?)
  {
    hide Of, Fine, Moves, Next;
    match e
    case TerminateApp(id, force) => OwnTerminate(s, id, force);
    case TakeStop(id, asked) => OwnTakeStop(s, id, asked);
    case Check(id) => OwnCheck(s, id);
    case BeginSettle(_) => OwnSettle(s, e);
    case EndSettle(_) => OwnSettle(s, e);
    case NoRuntime(_) => OwnRetire(s, e);
    case TellStopped(_) => OwnRetire(s, e);
    case StopUnstarted(_) => OwnRetire(s, e);
    case RegisterAbort(_) => OwnRegister(s, e);
    case OpenRelay(_) => OwnRegister(s, e);
    case RelayGone(_) => OwnRegister(s, e);
    case _ => OwnProgress(s, e);
  }

  function Rank(o: Session): nat {
    if !o.known then 0
    else match o.state
      case Some(Starting) => 1
      case Some(Running) => 2
      case Some(Stopping) => 3
      case Some(Stopped) => 4
      case None => 5
  }

  /** A forced stop is queued, or the session is being settled. */
  predicate Forced(o: Session) {
    (o.queue.Some? && Force in o.queue.value) || (o.phase.Some? && (o.phase.value.Settling? || o.phase.value.Ending? || o.phase.value.Told? || o.phase.value.Done?))
  }

  lemma LaunchStep(s: System, id: Id)
    requires Inv(s)
    ensures Moves(Of(s, id), Of(Next(s, LaunchApp), id), false)
  {
    hide Next;
    LaunchAround(s, id);
    assert Fine(Of(s, id));
  }

  lemma StepMoves(s: System, e: Event, id: Id)
    requires Inv(s)
    ensures Moves(Of(s, id), Of(Next(s, e), id), About(e, id) && e.TerminateApp?)
  {
    assert Fine(Of(s, id));
    if e.LaunchApp? {
      LaunchStep(s, id);
    } else if e.id == id {
      OwnStep(s, e);
    } else {
      hide Next;
      OthersStay(s, e, id);
    }
  }

  lemma StartIsFine()
    ensures Inv(Start)
  {
  }

  lemma StepKeeps(s: System, e: Event)
    requires Inv(s)
    ensures Inv(Next(s, e))
  {
    forall id ensures Fine(Of(Next(s, e), id)) && (Of(Next(s, e), id).state.Some? ==> NotesFit(Of(Next(s, e), id))) {
      StepMoves(s, e, id);
      hide Next, Of, Fine, NotesFit;
      assert Fine(Of(s, id)) && (Of(s, id).state.Some? ==> NotesFit(Of(s, id)));
    }
  }

  // ----- Whole runs -----

  /** A session's state only advances, from Starting to Running to Stopping to
      Stopped to forgotten; a forced stop, once asked for, stays asked for. */
  lemma {:induction false} StateOnlyAdvances(s: System, events: seq<Event>, id: Id)
    requires Inv(s)
    ensures Inv(After(s, events))
    ensures Rank(Of(s, id)) <= Rank(Of(After(s, events), id))
    ensures Forced(Of(s, id)) ==> Forced(Of(After(s, events), id))
    decreases |events|
  {
    hide Next, Of, Fine, NotesFit, Inv, Rank, Forced, LostInGap;
    if events != [] {
      StepKeeps(s, events[0]);
      StepMoves(s, events[0], id);
      StateOnlyAdvances(Next(s, events[0]), events[1..], id);
    }
  }

  lemma NumbersGrow(s: System, e: Event)
    ensures s.registry.next <= Next(s, e).registry.next
  {
  }

  lemma LaunchTakesNext(s: System)
    ensures Of(Next(s, LaunchApp), s.registry.next + 1).state == Some(Starting)
    ensures Next(s, LaunchApp).registry.next == s.registry.next + 1
  {
  }

  /** Session IDs are never used again: after any events, a launch starts a
      session under an ID none of the earlier sessions had. */
  lemma IdsAreNew(s: System, events: seq<Event>)
    ensures var t := After(s, events);
      var id := t.registry.next + 1;
      && Of(Next(t, LaunchApp), id).state == Some(Starting)
      && forall earlier: Id :: Of(s, earlier).known ==> earlier < id
  {
    NumbersOnlyGrow(s, events);
    LaunchTakesNext(After(s, events));
  }

  lemma {:induction false} NumbersOnlyGrow(s: System, events: seq<Event>)
    ensures s.registry.next <= After(s, events).registry.next
    decreases |events|
  {
    hide Next;
    if events != [] {
      NumbersGrow(s, events[0]);
      NumbersOnlyGrow(Next(s, events[0]), events[1..]);
    }
  }

  /** A terminate request strikes the session between its launch and the
      registration of its stop sender. */
  predicate StruckInGap(s: System, events: seq<Event>, id: Id)
    decreases |events|
  {
    events != []
    && ((About(events[0], id) && events[0].TerminateApp? && PhaseOf(s, id) == Some(Dispatching))
        || StruckInGap(Next(s, events[0]), events[1..], id))
  }

  /** A session no terminate request strikes in the gap is broadcast as at
      most one AppReady, then at most one Stopping, then at most one Stopped,
      which is there once its supervisor is done. */
  lemma {:induction false} BroadcastsInOrder(s: System, events: seq<Event>, id: Id)
    requires Inv(s) && !LostInGap(Of(s, id)) && NotesFit(Of(s, id)) && !StruckInGap(s, events, id)
    ensures var o := Of(After(s, events), id);
      && Orderly(o.notes)
      && (o.phase == Some(Done) <==> o.notes != [] && o.notes[|o.notes| - 1] == NowStopped)
    decreases |events|
  {
    if events == [] {
      NotesInOrder(Of(s, id));
    } else {
      StepKeeps(s, events[0]);
      StepMoves(s, events[0], id);
      assert Of(s, id).phase == PhaseOf(s, id);
      hide Next, Of, Inv, NotesFit, Orderly;
      BroadcastsInOrder(Next(s, events[0]), events[1..], id);
    }
  }

  /** Every run of weft-appd from its start keeps the invariant, and keeps the
      broadcasts of every session not struck in the gap in order. */
  lemma EveryRunInOrder(events: seq<Event>, id: Id)
    ensures Inv(After(Start, events))
    ensures !StruckInGap(Start, events, id) ==>
              var o := Of(After(Start, events), id);
              && Orderly(o.notes)
              && (o.phase == Some(Done) <==> o.notes != [] && o.notes[|o.notes| - 1] == NowStopped)
  {
    StartIsFine();
    StateOnlyAdvances(Start, events, id);
    if !StruckInGap(Start, events, id) { BroadcastsInOrder(Start, events, id); }
  }

  lemma NotesInOrder(o: Session)
    requires Fine(o) && !LostInGap(o) && NotesFit(o)
    ensures Orderly(o.notes)
    ensures o.phase == Some(Done) <==> o.notes != [] && o.notes[|o.notes| - 1] == NowStopped
  {
  }

  /** From the registration of its stop sender on, a session can no longer be
      struck in the gap. */
  lemma {:induction false} NotStruckLater(s: System, events: seq<Event>, id: Id)
    requires Inv(s) && Of(s, id).phase.Some? && Of(s, id).phase != Some(Dispatching)
    ensures !StruckInGap(s, events, id)
    decreases |events|
  {
    if events != [] {
      StepKeeps(s, events[0]);
      PastDispatching(s, events[0], id);
      NotStruckLater(Next(s, events[0]), events[1..], id);
    }
  }

  lemma PastDispatching(s: System, e: Event, id: Id)
    requires Inv(s) && Of(s, id).phase.Some? && Of(s, id).phase != Some(Dispatching)
    ensures Of(Next(s, e), id).phase.Some? && Of(Next(s, e), id).phase != Some(Dispatching)
  {
    assert Fine(Of(s, id));
  }

  /** Once a session's stop sender is registered, its broadcasts stay in order
      whatever follows exactly if the session is still in the registry: one
      lost in the gap is reported Stopping at every forced request. */
  lemma InOrderFromHere(s: System, id: Id)
    requires Inv(s) && Of(s, id).queue.Some?
    ensures (forall events :: Orderly(Of(After(s, events), id).notes)) <==> Of(s, id).state.Some?
  {
    assert Fine(Of(s, id)) && (Of(s, id).state.Some? ==> NotesFit(Of(s, id)));
    if Of(s, id).state.Some? {
      forall events ensures Orderly(Of(After(s, events), id).notes) {
        NotStruckLater(s, events, id);
        BroadcastsInOrder(s, events, id);
      }
    } else {
      var force := TerminateApp(id, true);
      ToldTwice(s, id);
      var notes := Of(After(s, [force, force]), id).notes;
      assert notes[|notes| - 1] == NowStopping && notes[|notes| - 2] == NowStopping;
      assert !Orderly(notes);
    }
  }

  lemma ToldTwice(s: System, id: Id)
    requires Of(s, id).queue.Some? && Of(s, id).state == None
    ensures var force := TerminateApp(id, true);
      Of(After(s, [force, force]), id).notes == Of(s, id).notes + [NowStopping, NowStopping]
  {
    hide Notes;
    var force := TerminateApp(id, true);
    var t := Next(s, force);
    NotesTold(s.log, id, NowStopping, id);
    NotesTold(t.log, id, NowStopping, id);
    assert [force, force][1..] == [force] && [force][1..] == [];
    assert After(s, [force, force]) == After(t, [force]) == After(Next(t, force), []) == Next(t, force);
  }

  /** A launch whose session is taken away in the gap: its supervisor starts
      the app all the same, and a client hears Stopping twice. */
  lemma LostLaunch()
    ensures var events := [LaunchApp, TerminateApp(1, false), RegisterAbort(1), TerminateApp(1, true), TerminateApp(1, true)];
      Of(After(Start, events), 1).notes == [NowStopping, NowStopping]
  {
    var launched := Next(Start, LaunchApp);
    assert launched.registry.sessions == map[1 := Starting];
    var registered := Next(Next(launched, TerminateApp(1, false)), RegisterAbort(1));
    assert registered.log == [];
    var events := [LaunchApp, TerminateApp(1, false), RegisterAbort(1), TerminateApp(1, true), TerminateApp(1, true)];
    assert events[1..][1..][1..] == [TerminateApp(1, true), TerminateApp(1, true)];
    assert After(Start, events) == After(registered, [TerminateApp(1, true), TerminateApp(1, true)]);
    ToldTwice(registered, 1);
  }

  /** However a supervisor ends, no stop sender and no IPC sender are left. */
  lemma NothingLeftBehind(s: System, id: Id)
    requires Inv(s) && (PhaseOf(s, id) == Some(Done) || PhaseOf(s, id) == Some(Told))
    ensures id !in s.registry.stops && id !in s.registry.relays
    ensures StateOf(s.registry, id) == Some(Stopped) || StateOf(s.registry, id) == None
  {
    assert Fine(Of(s, id));
  }

  // ----- Forced stops -----

  /** After a forced request there is a Force in the queue. */
  lemma ForceIsQueued(s: System, id: Id)
    requires Inv(s) && id in s.registry.stops
    ensures var t := Next(s, TerminateApp(id, true));
      id in t.registry.stops && Force in t.registry.stops[id] && Forced(Of(t, id))
  {
    assert Fine(Of(s, id));
  }

  /** While a Force is queued, taking what is queued settles the session,
      whether it is starting, running or closing. */
  lemma ForceSettles(s: System, id: Id, asked: bool, again: bool)
    requires Inv(s) && Forced(Of(s, id))
    requires PhaseOf(s, id) in {Some(AwaitRuntime), Some(AwaitShell), Some(Serving), Some(Closing)}
    ensures var t := Next(Next(s, TakeStop(id, asked)), TakeStop(id, again));
      PhaseOf(t, id) == Some(Settling)
  {
    assert Fine(Of(s, id));
  }

  /** A session with a Force queued is never presented as ready. */
  lemma ForcedIsNotPresented(s: System, id: Id)
    requires Inv(s) && Forced(Of(s, id)) && PhaseOf(s, id) == Some(Presenting)
    ensures PhaseOf(Next(s, Check(id)), id) == Some(Settling) && Next(s, Check(id)).log == s.log
  {
    assert Fine(Of(s, id));
  }

  // ----- Requests that are heard -----

  /** A close request on a supervised session that is not stopping is in the
      queue afterwards, unless another request is: it is queued behind
      nothing, and takes nothing from the queue. A running session is
      still running then; any other is stopping. */
  lemma CloseIsQueued(s: System, id: Id)
    requires Inv(s) && id in s.registry.stops
    requires id in s.registry.sessions && s.registry.sessions[id] != Stopping
    ensures var before := s.registry;
      var t := Next(s, TerminateApp(id, false));
      var after := t.registry;
      && id in after.stops && after.stops[id] != []
      && (before.stops[id] == [] ==> after.stops[id] == [Close])
      && (before.stops[id] != [] ==> after.stops[id] == before.stops[id])
      && StateOf(after, id) == Some(if before.sessions[id] == Running then Running else Stopping)
      && t.log == s.log + if before.sessions[id] == Running then [] else [Message(id, NowStopping)]
  {
    assert Fine(Of(s, id));
  }

  /** A terminate request on a session without a supervisor forgets it, and one
      on an unknown session changes nothing; neither is broadcast. */
  lemma UnsupervisedIsForgotten(s: System, id: Id, force: bool)
    requires id !in s.registry.stops
    ensures var t := Next(s, TerminateApp(id, force));
      && StateOf(t.registry, id) == None && t.log == s.log && t.phases == s.phases
      && t.registry == s.registry.(sessions := s.registry.sessions - {id})
  {
  }

  /** A Close taken while serving asks the application if the compositor can,
      and otherwise settles; while closing it changes nothing; before the
      session is ready it ends the startup. */
  lemma CloseIsTaken(s: System, id: Id, asked: bool)
    requires id in s.registry.stops && s.registry.stops[id] != [] && s.registry.stops[id][0] == Close
    ensures var t := Next(s, TakeStop(id, asked));
      && (PhaseOf(s, id) == Some(Serving) ==> PhaseOf(t, id) == Some(if asked then Closing else Settling))
      && (PhaseOf(s, id) == Some(Closing) ==> PhaseOf(t, id) == Some(Closing))
      && (PhaseOf(s, id) == Some(AwaitRuntime) || PhaseOf(s, id) == Some(AwaitShell) ==> PhaseOf(t, id) == Some(Settling))
      && (PhaseOf(t, id) != PhaseOf(s, id) || PhaseOf(s, id) == Some(Closing) ==>
            t.registry == s.registry.(stops := s.registry.stops[id := s.registry.stops[id][1..]]))
  {
  }

  /** A launch whose children become ready runs and is broadcast as ready. */
  lemma ReadyLaunchRuns(s: System)
    requires Inv(s)
    ensures var id := s.registry.next + 1;
      var t := After(s, [LaunchApp, RegisterAbort(id), OpenRelay(id), RuntimeReady(id), ShellReady(id), Check(id)]);
      && StateOf(t.registry, id) == Some(Running) && PhaseOf(t, id) == Some(Serving)
      && id in t.registry.relays && id in t.registry.stops && t.registry.stops[id] == []
      && t.log == s.log + [Message(id, AppReady)]
  {
    var id := s.registry.next + 1;
    assert Fine(Of(s, id));
    AfterSix(s, LaunchApp, RegisterAbort(id), OpenRelay(id), RuntimeReady(id), ShellReady(id), Check(id));
  }

  lemma AfterSix(s: System, a: Event, b: Event, c: Event, d: Event, e: Event, f: Event)
    ensures After(s, [a, b, c, d, e, f]) == Next(Next(Next(Next(Next(Next(s, a), b), c), d), e), f)
  {
    hide Next;
    AfterOne(s, a, [b, c, d, e, f]);
    AfterOne(Next(s, a), b, [c, d, e, f]);
    AfterOne(Next(Next(s, a), b), c, [d, e, f]);
    AfterOne(Next(Next(Next(s, a), b), c), d, [e, f]);
    AfterOne(Next(Next(Next(Next(s, a), b), c), d), e, [f]);
    AfterOne(Next(Next(Next(Next(Next(s, a), b), c), d), e), f, []);
  }

  lemma AfterOne(s: System, e: Event, events: seq<Event>)
    ensures After(s, [e] + events) == After(Next(s, e), events)
  {
    assert ([e] + events)[1..] == events;
  }

  /** A running application that declines a close goes on; one whose process
      ends, or that does not answer, is settled, stopped and broadcast so. */
  lemma ServingGoesOnOrEnds(s: System, id: Id)
    requires Inv(s) && StateOf(s.registry, id) == Some(Running)
    requires PhaseOf(s, id) == Some(Serving) || PhaseOf(s, id) == Some(Closing)
    ensures PhaseOf(s, id) == Some(Closing) ==> Next(s, Decline(id)) == To(s, id, Serving)
    ensures var t := Next(Next(Next(s, Fail(id)), BeginSettle(id)), EndSettle(id));
      && StateOf(t.registry, id) == Some(Stopped) && PhaseOf(t, id) == Some(Done)
      && id !in t.registry.stops && id !in t.registry.relays
      && t.log == s.log + [Message(id, NowStopping), Message(id, NowStopped)]
  {
    assert s.log + [Message(id, NowStopping)] + [Message(id, NowStopped)]
        == s.log + [Message(id, NowStopping), Message(id, NowStopped)];
  }

  /** A session that starts nothing is stopped and broadcast so, whether no
      runtime is configured or something it needs is missing. */
  lemma UnstartedIsStopped(s: System, id: Id)
    requires Inv(s) && PhaseOf(s, id) == Some(Unstarted) && id in s.registry.sessions
    ensures var t := Next(s, StopUnstarted(id));
      && StateOf(t.registry, id) == Some(Stopped) && PhaseOf(t, id) == Some(Done)
      && t.log == s.log + [Message(id, NowStopped)]
      && Next(Next(s, NoRuntime(id)), TellStopped(id)) == t
  {
    assert s.phases[id := Told][id := Done] == s.phases[id := Done];
  }

  // ----- weft-appd, one locked step at a time -----

  class Appd {
    const registry: SessionRegistry
    var phases: map<Id, Phase>
    var log: seq<Message>

    constructor ()
      ensures View() == Start && fresh(registry)
    {
      registry := new SessionRegistry();
      phases, log := map[], [];
    }

    function View(): System
      reads this, registry
    {
      System(registry.View(), phases, log)
    }

    predicate At(id: Id, p: Phase)
      reads this
    {
      id in phases && phases[id] == p
    }

    method Broadcast(id: Id, note: Note)
      modifies this`log
      ensures log == old(log) + [Message(id, note)]
    {
      log := log + [Message(id, note)];
    }

    /** Under one lock: Stopped, and no stop sender. */
    method Retire(id: Id)
      modifies registry
      ensures registry.View() == Retired(old(registry.View()), id)
    {
      registry.SetState(id, Stopped);
      registry.RemoveAbortSender(id);
    }

    /** A client's terminate request. */
    method TerminateRequest(id: Id, force: bool)
      modifies this`log, registry
      ensures View() == Next(old(View()), TerminateApp(id, force))
    {
      var before := StateOf(registry.View(), id);
      var state := registry.Terminate(id, force);
      if state == Some(Stopping) && before != Some(Stopping) { Broadcast(id, NowStopping); }
    }

    /** The UI host is ready: the session runs unless a stop was requested. */
    method CheckReady(id: Id)
      requires At(id, Presenting)
      modifies this, registry
      ensures View() == Next(old(View()), Check(id))
    {
      if StateOf(registry.View(), id) == Some(Stopping) {
        phases := phases[id := Settling];
        return;
      }
      var stop := registry.ReceiveStop(id);
      if stop.Some? {
        phases := phases[id := Settling];
        return;
      }
      registry.SetState(id, Running);
      phases := phases[id := Serving];
      Broadcast(id, AppReady);
    }

    /** A stop request reaches the supervisor. */
    method OnStop(id: Id, asked: bool)
      requires At(id, AwaitRuntime) || At(id, AwaitShell) || At(id, Serving) || At(id, Closing)
      modifies this`phases, registry
      ensures View() == Next(old(View()), TakeStop(id, asked))
    {
      var stop := registry.ReceiveStop(id);
      if stop.None? { return; }
      if phases[id] == Serving && stop.value == Close && asked {
        phases := phases[id := Closing];
      } else if !(phases[id] == Closing && stop.value == Close) {
        phases := phases[id := Settling];
      } else {
        phases := phases[id := Closing];
      }
    }

    /** The session is reported as stopping, unless it was, before its
        processes are ended. */
    method StartSettling(id: Id)
      requires At(id, Settling)
      modifies this, registry
      ensures View() == Next(old(View()), BeginSettle(id))
    {
      phases := phases[id := Ending];
      if StateOf(registry.View(), id) != Some(Stopping) {
        registry.SetState(id, Stopping);
        Broadcast(id, NowStopping);
      }
    }

    /** Everything the session owned is released. */
    method FinishSettling(id: Id)
      requires At(id, Ending)
      modifies this, registry
      ensures View() == Next(old(View()), EndSettle(id))
    {
      registry.RemoveIpcSender(id);
      Retire(id);
      phases := phases[id := Done];
      Broadcast(id, NowStopped);
    }

    /** A session that started no process is stopped. */
    method GiveUpUnstarted(id: Id)
      requires At(id, Unstarted)
      modifies this, registry
      ensures View() == Next(old(View()), StopUnstarted(id))
    {
      Retire(id);
      phases := phases[id := Done];
      Broadcast(id, NowStopped);
    }
  }
}
