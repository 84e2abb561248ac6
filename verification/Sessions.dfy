/** The sessions weft-appd knows, and how each one starts, runs and stops. */
module Sessions {
  import opened Options

  type Id = nat

  datatype Kind = Starting | Running | Stopping | Stopped

  /** What a client may ask of a session's supervisor. */
  datatype Stop = Close | Force

  /** The stopped sessions that are not forgotten. */
  const KEPT_STOPPED: nat := 32

  const STOP_QUEUE: nat := 2

  /** `stops` holds the queued stop requests of every session with a
      registered stop sender; `relays` the sessions with an IPC sender. */
  datatype Registry = Registry(next: Id, sessions: map<Id, Kind>, stops: map<Id, seq<Stop>>, relays: set<Id>)

  function StateOf(r: Registry, id: Id): Option<Kind> {
    if id in r.sessions then Some(r.sessions[id]) else None
  }

  function StoppedAfter(sessions: map<Id, Kind>, id: Id): set<Id> {
    set j | j in sessions && sessions[j] == Stopped && id < j
  }

  /** A stopped session is forgotten once KEPT_STOPPED later ones stopped. */
  function Pruned(sessions: map<Id, Kind>): map<Id, Kind> {
    map id | id in sessions && !(sessions[id] == Stopped && |StoppedAfter(sessions, id)| >= KEPT_STOPPED) :: sessions[id]
  }

  function Launched(r: Registry): Registry {
    r.(next := r.next + 1, sessions := Pruned(r.sessions)[r.next + 1 := Starting])
  }

  function WithState(r: Registry, id: Id, k: Kind): Registry {
    if id in r.sessions then r.(sessions := r.sessions[id := k]) else r
  }

  /** A full queue takes nothing. */
  function Queued(queue: seq<Stop>, stop: Stop): seq<Stop> {
    if |queue| < STOP_QUEUE then queue + [stop] else queue
  }

  /** A stop request and the state it reports. */
  function Terminated(r: Registry, id: Id, force: bool): (Registry, Option<Kind>) {
    if id in r.stops then
      if StateOf(r, id) == Some(Stopping) then
        (if force then r.(stops := r.stops[id := Queued(r.stops[id], Force)]) else r, Some(Stopping))
      else
        var queue :=
          if force then Queued(r.stops[id], Force)
          else if r.stops[id] == [] then Queued(r.stops[id], Close)
          else r.stops[id];
        var asked := r.(stops := r.stops[id := queue]);
        if !force && StateOf(r, id) == Some(Running) then (asked, Some(Running))
        else (WithState(asked, id, Stopping), Some(Stopping))
    else if id in r.sessions then (r.(sessions := r.sessions - {id}), Some(Stopped))
    else (r, None)
  }

  // ----- The registry, changed in place -----

  predicate Ascending(s: seq<Id>) { forall i, j :: 0 <= i < j < |s| ==> s[i] < s[j] }

  function Inserted(s: seq<Id>, x: Id): seq<Id> {
    if s == [] then [x] else if x <= s[0] then [x] + s else [s[0]] + Inserted(s[1..], x)
  }

  lemma {:induction false} InsertedAscending(s: seq<Id>, x: Id)
    requires Ascending(s) && x !in s
    ensures Ascending(Inserted(s, x))
    ensures forall y :: y in Inserted(s, x) <==> y == x || y in s
    ensures |Inserted(s, x)| == |s| + 1
  {
    if s != [] && x > s[0] {
      InsertedAscending(s[1..], x);
      var rest := Inserted(s[1..], x);
      forall j | 0 <= j < |rest| ensures s[0] < rest[j] {
        assert rest[j] == x || rest[j] in s[1..];
      }
      assert s == [s[0]] + s[1..];
    }
  }

  /** In ascending order, the last KEPT_STOPPED are the ones that stay. */
  lemma LaterOnes(sessions: map<Id, Kind>, order: seq<Id>, i: nat)
    requires Ascending(order) && i < |order|
    requires forall id :: id in order <==> id in sessions && sessions[id] == Stopped
    ensures |StoppedAfter(sessions, order[i])| == |order| - 1 - i
  {
    forall id ensures id in StoppedAfter(sessions, order[i]) <==> id in order[i + 1..] {
      if id in StoppedAfter(sessions, order[i]) {
        var j :| 0 <= j < |order| && order[j] == id;
        assert j > i && order[i + 1..][j - i - 1] == id;
      }
    }
    SizeOfAscending(order[i + 1..], StoppedAfter(sessions, order[i]));
  }

  /** What is left without the oldest stopped sessions. */
  lemma PrunedAre(before: map<Id, Kind>, after: map<Id, Kind>, stopped: seq<Id>, gone: nat)
    requires Ascending(stopped) && forall id :: id in stopped <==> id in before && before[id] == Stopped
    requires gone == if |stopped| <= KEPT_STOPPED then 0 else |stopped| - KEPT_STOPPED
    requires forall id :: id in after <==> id in before && id !in stopped[..gone]
    requires forall id :: id in after ==> after[id] == before[id]
    ensures after == Pruned(before)
  {
    hide StoppedAfter, Ascending;
    forall id | id in before && before[id] == Stopped
      ensures id in stopped[..gone] <==> |StoppedAfter(before, id)| >= KEPT_STOPPED
    {
      GoneExactly(before, stopped, gone, id);
    }
    assert forall id :: id in stopped[..gone] ==> id in stopped;
  }

  /** A stopped session is among the oldest exactly when enough others
      stopped later. */
  lemma GoneExactly(before: map<Id, Kind>, stopped: seq<Id>, gone: nat, id: Id)
    requires Ascending(stopped) && forall i :: i in stopped <==> i in before && before[i] == Stopped
    requires gone == if |stopped| <= KEPT_STOPPED then 0 else |stopped| - KEPT_STOPPED
    requires id in stopped
    ensures id in stopped[..gone] <==> |StoppedAfter(before, id)| >= KEPT_STOPPED
  {
    var k :| 0 <= k < |stopped| && stopped[k] == id;
    LaterOnes(before, stopped, k);
    hide StoppedAfter;
    InPrefix(stopped, gone, k);
  }

  lemma InPrefix(s: seq<Id>, n: nat, k: nat)
    requires Ascending(s) && n <= |s| && k < |s|
    ensures s[k] in s[..n] <==> k < n
  {
    if k < n { assert s[..n][k] == s[k]; }
  }

  lemma {:induction false} SizeOfAscending(s: seq<Id>, ids: set<Id>)
    requires Ascending(s) && forall id :: id in ids <==> id in s
    ensures |ids| == |s|
  {
    if s == [] {
      assert ids == {};
    } else {
      assert s == [s[0]] + s[1..];
      assert s[0] !in s[1..];
      SizeOfAscending(s[1..], ids - {s[0]});
      assert ids == {s[0]} + (ids - {s[0]});
    }
  }

  function StoppedIn(sessions: map<Id, Kind>): set<Id> { set id | id in sessions && sessions[id] == Stopped }

  /** Pruning forgets stopped sessions only, the oldest ones, and leaves
      KEPT_STOPPED of them, or all if there are no more. */
  lemma PrunedKeepsNewest(sessions: map<Id, Kind>)
    ensures var left := Pruned(sessions);
      && (forall id :: id in left ==> id in sessions && left[id] == sessions[id])
      && (forall id :: id in sessions && sessions[id] != Stopped ==> id in left)
      && (forall older, kept :: older in sessions && older !in left && kept in StoppedIn(left) ==> older < kept)
      && |StoppedIn(left)| == if |StoppedIn(sessions)| <= KEPT_STOPPED then |StoppedIn(sessions)| else KEPT_STOPPED
  {
    var order := InOrder(StoppedIn(sessions));
    SizeOfAscending(order, StoppedIn(sessions));
    var gone := if |order| <= KEPT_STOPPED then 0 else |order| - KEPT_STOPPED;
    var left := Pruned(sessions);
    PrunedAreFirst(sessions, order, gone);
    hide StoppedAfter, Ascending;
    AscendingParts(order, gone);
    SizeOfAscending(order[gone..], StoppedIn(left));
  }

  /** Of the stopped sessions in ascending order, the first are forgotten. */
  lemma PrunedAreFirst(sessions: map<Id, Kind>, order: seq<Id>, gone: nat)
    requires Ascending(order) && forall i :: i in order <==> i in sessions && sessions[i] == Stopped
    requires gone == if |order| <= KEPT_STOPPED then 0 else |order| - KEPT_STOPPED
    ensures forall id :: id in order ==> (id in Pruned(sessions) <==> id in order[gone..])
    ensures forall id :: id in order ==> (id !in Pruned(sessions) <==> id in order[..gone])
  {
    hide StoppedAfter;
    forall id | id in order
      ensures id in Pruned(sessions) <==> id in order[gone..]
      ensures id !in Pruned(sessions) <==> id in order[..gone]
    {
      GoneExactly(sessions, order, gone, id);
      var k :| 0 <= k < |order| && order[k] == id;
      InPrefix(order, gone, k);
      InSuffix(order, gone, k);
    }
  }

  lemma InSuffix(s: seq<Id>, n: nat, k: nat)
    requires Ascending(s) && n <= |s| && k < |s|
    ensures s[k] in s[n..] <==> n <= k
  {
    if n <= k { assert s[n..][k - n] == s[k]; }
  }

  lemma AscendingParts(s: seq<Id>, n: nat)
    requires Ascending(s) && n <= |s|
    ensures Ascending(s[n..])
    ensures forall x, y :: x in s[..n] && y in s[n..] ==> x < y
  {
  }

  lemma InOrder(ids: set<Id>) returns (order: seq<Id>)
    ensures Ascending(order) && forall id :: id in order <==> id in ids
  {
    order := [];
    var todo := ids;
    while todo != {}
      invariant todo <= ids && Ascending(order)
      invariant forall id :: id in order <==> id in ids && id !in todo
      decreases |todo|
    {
      var id :| id in todo;
      todo := todo - {id};
      InsertedAscending(order, id);
      order := Inserted(order, id);
    }
  }

  class SessionRegistry {
    var nextId: Id
    var sessions: map<Id, Kind>
    var abortSenders: map<Id, seq<Stop>>
    var ipcSenders: set<Id>

    constructor ()
      ensures View() == Registry(0, map[], map[], {})
    {
      nextId, sessions, abortSenders, ipcSenders := 0, map[], map[], {};
    }

    function View(): Registry
      reads this
    {
      Registry(nextId, sessions, abortSenders, ipcSenders)
    }

    /** The stopped sessions, oldest first. */
    method StoppedIds() returns (stopped: seq<Id>)
      ensures Ascending(stopped)
      ensures forall id :: id in stopped <==> id in sessions && sessions[id] == Stopped
    {
      stopped := [];
      var todo := sessions.Keys;
      while todo != {}
        invariant todo <= sessions.Keys && Ascending(stopped)
        invariant forall id :: id in stopped <==> id in sessions && id !in todo && sessions[id] == Stopped
        decreases |todo|
      {
        var id :| id in todo;
        todo := todo - {id};
        if sessions[id] == Stopped {
          InsertedAscending(stopped, id);
          stopped := Inserted(stopped, id);
        }
      }
    }

    method PruneStopped()
      modifies this`sessions
      ensures sessions == Pruned(old(sessions))
    {
      var stopped := StoppedIds();
      ghost var before := sessions;
      if |stopped| <= KEPT_STOPPED {
        PrunedAre(before, sessions, stopped, 0);
        return;
      }
      var i := 0;
      while i < |stopped| - KEPT_STOPPED
        invariant 0 <= i <= |stopped| - KEPT_STOPPED
        invariant forall id :: id in sessions <==> id in before && id !in stopped[..i]
        invariant forall id :: id in sessions ==> sessions[id] == before[id]
      {
        sessions := sessions - {stopped[i]};
        i := i + 1;
      }
      PrunedAre(before, sessions, stopped, i);
    }

    method Launch() returns (id: Id)
      modifies this
      ensures View() == Launched(old(View())) && id == nextId
    {
      PruneStopped();
      nextId := nextId + 1;
      id := nextId;
      sessions := sessions[id := Starting];
    }

    method SetState(id: Id, k: Kind)
      modifies this`sessions
      ensures View() == WithState(old(View()), id, k)
    {
      if id in sessions { sessions := sessions[id := k]; }
    }

    method TrySend(id: Id, stop: Stop)
      requires id in abortSenders
      modifies this`abortSenders
      ensures abortSenders == old(abortSenders)[id := Queued(old(abortSenders)[id], stop)]
    {
      if |abortSenders[id]| < STOP_QUEUE {
        abortSenders := abortSenders[id := abortSenders[id] + [stop]];
      }
    }

    method Terminate(id: Id, force: bool) returns (state: Option<Kind>)
      modifies this
      ensures (View(), state) == Terminated(old(View()), id, force)
    {
      if id in abortSenders {
        var before := if id in sessions then Some(sessions[id]) else None;
        if before == Some(Stopping) {
          if force { TrySend(id, Force); }
          return Some(Stopping);
        }
        if force {
          TrySend(id, Force);
        } else if STOP_QUEUE - |abortSenders[id]| == STOP_QUEUE {
          TrySend(id, Close);
        } else {
          assert abortSenders == abortSenders[id := abortSenders[id]];
        }
        if !force && before == Some(Running) { return Some(Running); }
        SetState(id, Stopping);
        return Some(Stopping);
      }
      if id in sessions {
        sessions := sessions - {id};
        return Some(Stopped);
      }
      return None;
    }

    method RegisterAbort(id: Id)
      modifies this`abortSenders
      ensures abortSenders == old(abortSenders)[id := []]
    {
      abortSenders := abortSenders[id := []];
    }

    /** The supervisor takes the oldest queued request, if there is one. */
    method ReceiveStop(id: Id) returns (stop: Option<Stop>)
      modifies this`abortSenders
      ensures stop == if id in old(abortSenders) && old(abortSenders)[id] != [] then Some(old(abortSenders)[id][0]) else None
      ensures abortSenders ==
                if stop.Some? then old(abortSenders)[id := old(abortSenders)[id][1..]] else old(abortSenders)
    {
      if id !in abortSenders || abortSenders[id] == [] { return None; }
      stop := Some(abortSenders[id][0]);
      abortSenders := abortSenders[id := abortSenders[id][1..]];
    }

    method RemoveAbortSender(id: Id)
      modifies this`abortSenders
      ensures abortSenders == old(abortSenders) - {id}
    {
      abortSenders := abortSenders - {id};
    }

    method RegisterIpcSender(id: Id)
      modifies this`ipcSenders
      ensures ipcSenders == old(ipcSenders) + {id}
    {
      ipcSenders := ipcSenders + {id};
    }

    method RemoveIpcSender(id: Id)
      modifies this`ipcSenders
      ensures ipcSenders == old(ipcSenders) - {id}
    {
      ipcSenders := ipcSenders - {id};
    }
  }
}
