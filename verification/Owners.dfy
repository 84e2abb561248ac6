/** Who an app ID belongs to: the owner record, the operations that check and
    write it one file access at a time under the owner lock, and launches
    preparing app data, which hold no lock. */
module Owners {
  import opened Options

  /** A publisher's key, or development. */
  type Owner = nat

  /** What the holder of the owner lock does next. */
  datatype Holder =
    | Nobody
    | Admit(owner: Owner, claimData: bool)   // an installation reads the record
    | FirstLaunch(owner: Owner)              // a launch by a trusted signer reads it
    | LookHome(owner: Owner, launch: bool)
    | LookLegacy(owner: Owner, launch: bool)
    | Write(owner: Owner, launch: bool, claimed: bool)
    | Place(created: bool)
    | ReleaseLookHome                        // an uninstall looks for app data
    | ReleaseLookLegacy
    | Release

  /** `home` and `legacy` are whether app data is in the app's own directory,
      and in its place in the earlier layout. */
  datatype State = State(record: Option<Owner>, home: bool, legacy: bool, holder: Holder)

  datatype Event =
    | Install(owner: Owner, claimData: bool)
    | Uninstall
    | Launch(owner: Owner)
    | Advance            // the holder's next step
    | Break              // it fails there
    | MoveData           // a launch moves data from the earlier layout
    | CreateData
    | WipeHome           // the user removes data
    | WipeLegacy

  predicate NoData(s: State) { !s.home && !s.legacy }

  function Advanced(s: State): State {
    match s.holder
    case Nobody => s
    case Admit(owner, claimData) =>
      s.(holder :=
        if s.record.Some? then if s.record.value == owner then Place(false) else Nobody
        else if claimData then Write(owner, false, true)
        else LookHome(owner, false))
    case FirstLaunch(owner) => s.(holder := if s.record.Some? then Nobody else LookHome(owner, true))
    case LookHome(owner, launch) => s.(holder := if s.home then Nobody else LookLegacy(owner, launch))
    case LookLegacy(owner, launch) => s.(holder := if s.legacy then Nobody else Write(owner, launch, false))
    case Write(owner, launch, _) =>
      if s.record.Some? then s.(holder := Nobody)
      else s.(record := Some(owner), holder := if launch then Nobody else Place(true))
    case Place(_) => s.(holder := Nobody)
    case ReleaseLookHome => s.(holder := if s.home then Nobody else ReleaseLookLegacy)
    case ReleaseLookLegacy => s.(holder := if s.legacy then Nobody else Release)
    case Release => s.(record := None, holder := Nobody)
  }

  /** Data is created only once there is none in the earlier layout, and moved
      only where there is none. */
  function Next(s: State, e: Event): State {
    match e
    case Install(owner, claimData) => if s.holder.Nobody? then s.(holder := Admit(owner, claimData)) else s
    case Uninstall => if s.holder.Nobody? then s.(holder := ReleaseLookHome) else s
    case Launch(owner) => if s.holder.Nobody? then s.(holder := FirstLaunch(owner)) else s
    case Advance => Advanced(s)
    case Break => s.(record := if s.holder == Place(true) then None else s.record, holder := Nobody)
    case MoveData => if s.legacy && !s.home then s.(home := true, legacy := false) else s
    case CreateData => if s.legacy then s else s.(home := true)
    case WipeHome => s.(home := false)
    case WipeLegacy => s.(legacy := false)
  }

  function After(s: State, events: seq<Event>): State
    decreases |events|
  {
    if events == [] then s else After(Next(s, events[0]), events[1..])
  }

  /** Only an ID with no recorded owner is being checked or claimed. */
  predicate Inv(s: State) {
    s.holder.LookHome? || s.holder.LookLegacy? || s.holder.Write? ==> s.record.None?
  }

  lemma NextKeeps(s: State, e: Event)
    requires Inv(s)
    ensures Inv(Next(s, e))
  {
  }

  /** Some state on the way has no app data in either layout. */
  predicate PassesNoData(s: State, events: seq<Event>)
    decreases |events|
  {
    NoData(s) || (events != [] && PassesNoData(Next(s, events[0]), events[1..]))
  }

  /** An installation with --claim-data records an owner. */
  predicate ClaimsData(s: State, events: seq<Event>)
    decreases |events|
  {
    events != []
    && ((events[0].Advance? && s.holder.Write? && s.holder.claimed)
        || ClaimsData(Next(s, events[0]), events[1..]))
  }

  /** A launch moves data between the two looks of a check that may record an
      owner. */
  predicate MovesUnderCheck(s: State, events: seq<Event>)
    decreases |events|
  {
    events != []
    && ((events[0].MoveData? && s.holder.LookLegacy? && s.legacy && !s.home)
        || MovesUnderCheck(Next(s, events[0]), events[1..]))
  }

  /** While there is always data, no check gets past both looks. */
  predicate Guarded(s: State, owner: Owner) {
    && (s.record == Some(owner) || s.record == None)
    && (s.holder.Write? ==> s.holder.claimed)
    && (s.holder.LookLegacy? ==> s.legacy && !s.home)
  }

  lemma {:induction false} StaysGuarded(s: State, events: seq<Event>, owner: Owner)
    requires Inv(s) && Guarded(s, owner)
    requires !PassesNoData(s, events) && !ClaimsData(s, events) && !MovesUnderCheck(s, events)
    ensures Guarded(After(s, events), owner)
    decreases |events|
  {
    if events != [] {
      NextKeeps(s, events[0]);
      StaysGuarded(Next(s, events[0]), events[1..], owner);
    }
  }

  /** Whatever the holder is doing, the recorded owner changes only through a
      state with no app data, or by an installation with --claim-data, as long
      as no launch moves data from the earlier layout between the two looks of
      a check. */
  lemma OwnerChangesOnlyWithoutData(s: State, events: seq<Event>)
    requires Inv(s) && s.record.Some? && !MovesUnderCheck(s, events)
    ensures var t := After(s, events);
      t.record.Some? && t.record != s.record ==> PassesNoData(s, events) || ClaimsData(s, events)
  {
    if !PassesNoData(s, events) && !ClaimsData(s, events) { StaysGuarded(s, events, s.record.value); }
  }

  // ----- Exactly when an owner can lose data to another -----

  /** The record is about to go, or may go, with data in the earlier layout:
      the installation that made it is still placing its package, or an
      uninstall has decided to release it. */
  predicate Exposed(s: State) { s.legacy && (s.holder == Place(true) || s.holder.Release?) }

  /** The owner is recorded and not exposed, or the record went while all the
      data was in its current place, where every check finds it. */
  predicate Held(s: State, owner: Owner) {
    && Inv(s) && !NoData(s)
    && if s.record.Some? then s.record == Some(owner) && !Exposed(s)
       else s.home && !s.legacy && !s.holder.LookLegacy? && (s.holder.Write? ==> s.holder.claimed)
  }

  lemma {:induction false} StaysHeld(s: State, events: seq<Event>, owner: Owner)
    requires Held(s, owner) && !PassesNoData(s, events) && !ClaimsData(s, events)
    ensures Held(After(s, events), owner)
    decreases |events|
  {
    if events != [] {
      NextKeeps(s, events[0]);
      assert !NoData(Next(s, events[0]));
      StaysHeld(Next(s, events[0]), events[1..], owner);
    }
  }

  /** From a state in which nobody holds the owner lock, the recorded owner
      never becomes another while there is data and no --claim-data
      installation, whatever launches move under a check. */
  lemma OwnerKeepsWithData(s: State, events: seq<Event>)
    requires s.holder.Nobody? && s.record.Some?
    requires !PassesNoData(s, events) && !ClaimsData(s, events)
    ensures After(s, events).record == s.record || After(s, events).record == None
  {
    StaysHeld(s, events, s.record.value);
  }

  /** The events give the recorded owner's data to another. */
  predicate GivesAway(s: State, events: seq<Event>) {
    && !PassesNoData(s, events) && !ClaimsData(s, events)
    && After(s, events).record.Some? && After(s, events).record != s.record
  }

  /** With data there, a recorded owner can lose it to another exactly while
      the record is exposed with data in the earlier layout. */
  lemma OwnerLosesDataExactly(s: State)
    requires Inv(s) && s.record.Some? && !NoData(s)
    ensures (exists events :: GivesAway(s, events)) <==> Exposed(s)
  {
    if Exposed(s) {
      var events := ExposedRun(s);
      assert GivesAway(s, events);
    } else {
      forall events ensures !GivesAway(s, events) {
        if GivesAway(s, events) { StaysHeld(s, events, s.record.value); }
      }
    }
  }

  /** In a run that starts while nobody holds the owner lock, that is only
      while the installation that made the record is placing. */
  lemma {:induction false} ExposedWhilePlacing(s: State, events: seq<Event>)
    requires s.holder.Release? ==> !s.legacy
    ensures Exposed(After(s, events)) ==> After(s, events).holder == Place(true)
    decreases |events|
  {
    if events != [] { ExposedWhilePlacing(Next(s, events[0]), events[1..]); }
  }

  /** The record goes, another owner's check looks at the current place, a
      launch moves the data there, and the check looks at the earlier one. */
  lemma ExposedRun(s: State) returns (events: seq<Event>)
    requires s.record.Some? && Exposed(s)
    ensures GivesAway(s, events)
  {
    var other := s.record.value + 1;
    var first := if s.holder.Release? then Advance else Break;
    var s1 := Next(s, first);
    var s2 := Next(s1, Install(other, false));
    var s3 := Next(s2, Advance);
    var s4 := Next(s3, WipeHome);
    var s5 := Next(s4, Advance);
    assert s5 == State(None, false, true, LookLegacy(other, false));
    var rest := [MoveData, Advance, Advance];
    MoveGivesDataAway(s5);
    OneMore(s4, Advance, rest);
    OneMore(s3, WipeHome, [Advance] + rest);
    OneMore(s2, Advance, [WipeHome] + ([Advance] + rest));
    OneMore(s1, Install(other, false), [Advance] + ([WipeHome] + ([Advance] + rest)));
    events := [first] + ([Install(other, false)] + ([Advance] + ([WipeHome] + ([Advance] + rest))));
    OneMore(s, first, events[1..]);
    assert events == [first] + events[1..];
  }

  /** Launches preparing data only while nobody holds the owner lock never move
      it under a check. */
  predicate Prepared(s: State, events: seq<Event>)
    decreases |events|
  {
    events == [] || ((events[0].MoveData? ==> s.holder.Nobody?) && Prepared(Next(s, events[0]), events[1..]))
  }

  lemma {:induction false} PreparedUnderLock(s: State, events: seq<Event>)
    requires Prepared(s, events)
    ensures !MovesUnderCheck(s, events)
    decreases |events|
  {
    if events != [] { PreparedUnderLock(Next(s, events[0]), events[1..]); }
  }

  /** Whenever a check has looked at one place and the data is in the other,
      a move there and then gives the ID away with its data. */
  lemma MoveGivesDataAway(s: State)
    requires Inv(s) && s.holder.LookLegacy? && s.legacy && !s.home
    ensures After(s, [MoveData, Advance, Advance]).record == Some(s.holder.owner)
    ensures !PassesNoData(s, [MoveData, Advance, Advance]) && !ClaimsData(s, [MoveData, Advance, Advance])
  {
    var events := [MoveData, Advance, Advance];
    assert events[1..] == [Advance, Advance] && events[1..][1..] == [Advance] && events[1..][1..][1..] == [];
    var t := Next(s, MoveData);
    var u := Next(t, Advance);
    assert u.holder == Write(s.holder.owner, s.holder.launch, false);
    assert After(s, events) == After(t, [Advance, Advance]) == After(u, [Advance]) == Next(u, Advance);
    assert !PassesNoData(Next(u, Advance), []) && !PassesNoData(u, [Advance]) && !PassesNoData(t, [Advance, Advance]);
    assert !ClaimsData(Next(u, Advance), []) && !ClaimsData(u, [Advance]) && !ClaimsData(t, [Advance, Advance]);
  }

  /** One such run: an installation with --claim-data has recorded its owner
      and fails to place its package, and an installation without it by
      another owner follows. */
  lemma OwnerLostToAnother()
    ensures var start := State(Some(1), false, true, Place(true));
      var events := [Break, Install(2, false), Advance, Advance] + [MoveData, Advance, Advance];
      After(start, events).record == Some(2) && !PassesNoData(start, events) && !ClaimsData(start, events)
  {
    var start := State(Some(1), false, true, Place(true));
    var rest := [MoveData, Advance, Advance];
    var s1 := Next(start, Break);
    var s2 := Next(s1, Install(2, false));
    var s3 := Next(s2, Advance);
    var s4 := Next(s3, Advance);
    assert s4 == State(None, false, true, LookLegacy(2, false));
    MoveGivesDataAway(s4);
    OneMore(s3, Advance, rest);
    OneMore(s2, Advance, [Advance] + rest);
    OneMore(s1, Install(2, false), [Advance] + ([Advance] + rest));
    OneMore(start, Break, [Install(2, false)] + ([Advance] + ([Advance] + rest)));
    assert [Break, Install(2, false), Advance, Advance] + rest
        == [Break] + ([Install(2, false)] + ([Advance] + ([Advance] + rest)));
  }

  lemma OneMore(s: State, e: Event, events: seq<Event>)
    ensures After(s, [e] + events) == After(Next(s, e), events)
    ensures PassesNoData(s, [e] + events) <==> NoData(s) || PassesNoData(Next(s, e), events)
    ensures ClaimsData(s, [e] + events) <==>
              (e.Advance? && s.holder.Write? && s.holder.claimed) || ClaimsData(Next(s, e), events)
  {
    assert ([e] + events)[1..] == events;
  }

  // ----- Released with data -----

  /** A launch moves data between the two looks of an uninstall. */
  predicate MovesUnderRelease(s: State, events: seq<Event>)
    decreases |events|
  {
    events != []
    && ((events[0].MoveData? && s.holder.ReleaseLookLegacy? && s.legacy && !s.home)
        || MovesUnderRelease(Next(s, events[0]), events[1..]))
  }

  /** What launches and the user do without the owner lock. */
  predicate Outside(e: Event) { e.MoveData? || e.CreateData? || e.WipeHome? || e.WipeLegacy? }

  /** Those of the events that need no owner lock. */
  function OutsideOf(events: seq<Event>): seq<Event> {
    if events == [] then []
    else OutsideOf(events[..|events| - 1]) + (if Outside(events[|events| - 1]) then [events[|events| - 1]] else [])
  }

  predicate AllOutside(events: seq<Event>) { forall e :: e in events ==> Outside(e) }

  /** While there is data, a record that was there before an operation goes
      only after such a move. */
  lemma {:induction false} ReleasedOnlyByMove(s: State, events: seq<Event>)
    requires Inv(s) && s.record.Some? && s.holder != Place(true) && !s.holder.Release?
    requires s.holder.ReleaseLookLegacy? ==> s.legacy && !s.home
    requires !PassesNoData(s, events) && !MovesUnderRelease(s, events)
    ensures After(s, events).record == s.record
    decreases |events|
  {
    if events != [] {
      NextKeeps(s, events[0]);
      assert !NoData(Next(s, events[0]));
      ReleasedOnlyByMove(Next(s, events[0]), events[1..]);
    }
  }

  lemma {:induction false} OutsideAround(s: State, events: seq<Event>)
    requires AllOutside(events)
    ensures After(s, events).record == s.record && After(s, events).holder == s.holder
    ensures s.legacy && !s.home && !PassesNoData(s, events) ==>
              After(s, events).legacy == (MoveData !in events)
    ensures !s.legacy ==> !After(s, events).legacy
    decreases |events|
  {
    if events != [] {
      assert events[0] in events && events == [events[0]] + events[1..];
      OutsideAround(Next(s, events[0]), events[1..]);
      assert PassesNoData(s, events) || !PassesNoData(Next(s, events[0]), events[1..]);
    }
  }

  /** An uninstall releases the record of an ID that has data all along exactly
      when its first look finds none and a launch moves it before the second. */
  lemma ReleaseLeavesDataExactly(s: State, before: seq<Event>, between: seq<Event>, after: seq<Event>)
    requires s.record.Some? && s.holder.ReleaseLookHome?
    requires AllOutside(before) && AllOutside(between) && AllOutside(after)
    requires var t := After(s, before); !PassesNoData(s, before) && !PassesNoData(Next(t, Advance), between)
    ensures var t := After(s, before);
      var u := After(Next(t, Advance), between);
      var v := After(Next(u, Advance), after);
      Next(v, Advance).record == None <==> !t.home && MoveData in between
  {
    var t := After(s, before);
    OutsideAround(s, before);
    PassesLast(s, before);
    var u := After(Next(t, Advance), between);
    OutsideAround(Next(t, Advance), between);
    OutsideAround(Next(u, Advance), after);
  }

  lemma {:induction false} PassesLast(s: State, events: seq<Event>)
    requires !PassesNoData(s, events)
    ensures !NoData(After(s, events))
    decreases |events|
  {
    if events != [] { PassesLast(Next(s, events[0]), events[1..]); }
  }

  // ----- The operations, one file access at a time -----

  lemma {:induction false} AfterOneMore(s: State, events: seq<Event>, e: Event)
    ensures After(s, events + [e]) == Next(After(s, events), e)
    decreases |events|
  {
    if events == [] {
      assert [e][1..] == [] && events + [e] == [e];
    } else {
      assert (events + [e])[1..] == events[1..] + [e];
      AfterOneMore(Next(s, events[0]), events[1..], e);
    }
  }

  /** Some state on the way has app data in one of the layouts. */
  predicate PassesData(s: State, events: seq<Event>)
    decreases |events|
  {
    !NoData(s) || (events != [] && PassesData(Next(s, events[0]), events[1..]))
  }

  lemma {:induction false} PassesLater(s: State, first: seq<Event>, later: seq<Event>)
    requires PassesData(After(s, first), later)
    ensures PassesData(s, first + later)
    decreases |first|
  {
    if first == [] {
      assert first + later == later;
    } else {
      assert (first + later)[0] == first[0] && (first + later)[1..] == first[1..] + later;
      PassesLater(Next(s, first[0]), first[1..], later);
    }
  }

  lemma {:induction false} PassedData(s: State, first: seq<Event>, later: seq<Event>)
    requires PassesData(s, first)
    ensures PassesData(s, first + later)
    decreases |first|
  {
    if first != [] {
      assert (first + later)[0] == first[0] && (first + later)[1..] == first[1..] + later;
      if NoData(s) { PassedData(Next(s, first[0]), first[1..], later); }
    }
  }

  lemma {:induction false} AfterBoth(s: State, first: seq<Event>, later: seq<Event>)
    ensures After(s, first + later) == After(After(s, first), later)
    decreases |first|
  {
    if first == [] {
      assert first + later == later;
    } else {
      assert (first + later)[0] == first[0] && (first + later)[1..] == first[1..] + later;
      AfterBoth(Next(s, first[0]), first[1..], later);
    }
  }

  class OwnerRecord {
    var record: Option<Owner>
    var home: bool
    var legacy: bool

    /** What happens outside before each file access. */
    var schedule: seq<seq<Event>>

    ghost const start: State
    ghost var events: seq<Event>
    ghost var holder: Holder

    ghost function View(): State
      reads this
    {
      State(record, home, legacy, holder)
    }

    /** What happened is a run of the events. */
    ghost predicate Valid()
      reads this
    {
      Inv(View()) && View() == After(start, events)
    }

    constructor (record: Option<Owner>, home: bool, legacy: bool, schedule: seq<seq<Event>>)
      ensures Valid() && holder.Nobody? && this.record == record && this.home == home && this.legacy == legacy
    {
      this.record, this.home, this.legacy, this.schedule := record, home, legacy, schedule;
      start, events, holder := State(record, home, legacy, Nobody), [], Nobody;
    }

    /** Notes that the fields are those after `e`. */
    ghost method Note(before: State, e: Event)
      requires Inv(before) && before == After(start, events)
      requires Next(before, e) == State(record, home, legacy, Next(before, e).holder)
      modifies this`holder, this`events
      ensures Valid() && View() == Next(before, e) && events == old(events) + [e]
    {
      NextKeeps(before, e);
      AfterOneMore(start, events, e);
      holder, events := Next(before, e).holder, events + [e];
    }

    /** The events of the schedule that happen before the next access. */
    method Around()
      requires Valid()
      modifies this`home, this`legacy, this`schedule, this`holder, this`events
      ensures Valid() && holder == old(holder) && old(events) <= events
      ensures events == old(events) + if old(schedule) == [] then [] else OutsideOf(old(schedule)[0])
      ensures schedule == if old(schedule) == [] then [] else old(schedule)[1..]
    {
      if schedule == [] { return; }
      var batch := schedule[0];
      schedule := schedule[1..];
      var i := 0;
      while i < |batch|
        invariant Valid() && holder == old(holder) && old(events) <= events && record == old(record)
        invariant i <= |batch| && events == old(events) + OutsideOf(batch[..i])
        invariant schedule == old(schedule)[1..]
      {
        var e := batch[i];
        assert batch[..i + 1][..i] == batch[..i];
        i := i + 1;
        if Outside(e) {
          ghost var before := View();
          match e {
            case MoveData => if legacy && !home { home, legacy := true, false; }
            case CreateData => if !legacy { home := true; }
            case WipeHome => home := false;
            case WipeLegacy => legacy := false;
          }
          Note(before, e);
        }
      }
      assert batch[..|batch|] == batch;
    }

    /** Whether app data exists, looking at one place and then the other. */
    method ExistingAppData() returns (found: bool)
      requires Valid() && (holder.LookHome? || holder.ReleaseLookHome?)
      modifies this`home, this`legacy, this`schedule, this`holder, this`events
      ensures Valid() && old(events) <= events
      ensures found ==> holder.Nobody?
      ensures found ==> PassesData(old(View()), events[|old(events)|..])
      ensures !found ==>
                holder == match old(holder) case LookHome(owner, launch) => Write(owner, launch, false) case _ => Release
    {
      Around();
      var here := home;
      if here { Found(old(events), old(View())); }
      ghost var seen := events;
      Note(View(), Advance);
      if here { Still(old(events), old(View()), seen); return true; }
      Around();
      found := legacy;
      if found { Found(old(events), old(View())); }
      seen := events;
      Note(View(), Advance);
      if found { Still(old(events), old(View()), seen); }
    }

    /** There is data now, so there was on the way. */
    lemma Found(before: seq<Event>, was: State)
      requires Valid() && before <= events && was == After(start, before) && !NoData(View())
      ensures PassesData(was, events[|before|..])
    {
      var ran := events[|before|..];
      assert events == before + ran;
      AfterBoth(start, before, ran);
      PassesLater(was, ran, []);
      assert ran + [] == ran;
    }

    /** Data on the way of a part is data on the way of the whole. */
    lemma Later(before: seq<Event>, was: State, middle: seq<Event>, now: State)
      requires before <= middle <= events && was == After(start, before) && now == After(start, middle)
      requires PassesData(now, events[|middle|..])
      ensures PassesData(was, events[|before|..])
    {
      var first, later := middle[|before|..], events[|middle|..];
      assert middle == before + first && events[|before|..] == first + later;
      AfterBoth(start, before, first);
      PassesLater(was, first, later);
    }

    lemma Still(before: seq<Event>, was: State, seen: seq<Event>)
      requires before <= seen <= events && PassesData(was, seen[|before|..])
      ensures PassesData(was, events[|before|..])
    {
      assert events[|before|..] == seen[|before|..] + events[|seen|..];
      PassedData(was, seen[|before|..], events[|seen|..]);
    }

    /** Establishes the owner of an installation: the recorded one, or one
        recorded now; `created` tells which. */
    method Admit(owner: Owner, claimData: bool) returns (admitted: bool, created: bool)
      requires Valid() && holder.Nobody?
      modifies this
      ensures Valid() && old(events) + [Install(owner, claimData)] <= events
      ensures if admitted then record == Some(owner) && holder == Place(created) else holder.Nobody?
      ensures created ==> admitted
      // A recorded owner is admitted and nobody else.
      ensures old(record).Some? ==> !created && record == old(record) && (admitted <==> old(record) == Some(owner))
      // An ID without a record goes to whoever asks, unless there is data.
      ensures old(record).None? ==> (created <==> admitted) && (admitted || record.None?)
      ensures old(record).None? && !admitted ==> !claimData && PassesData(old(View()), events[|old(events)|..])
    {
      hide PassesData, After, OutsideOf;
      Note(View(), Install(owner, claimData));
      admitted, created := false, false;
      Around();
      var existing := record;
      Note(View(), Advance);
      if existing.Some? {
        admitted := existing.value == owner;
        return;
      }
      if !claimData {
        ghost var before := events;
        ghost var looking := View();
        var found := ExistingAppData();
        if found {
          Later(old(events), old(View()), before, looking);
          return;
        }
      }
      Around();
      WriteOwner(owner);
      admitted, created := true, true;
    }

    /** Records an owner where there is none. */
    method WriteOwner(owner: Owner)
      requires Valid() && holder.Write? && holder.owner == owner
      modifies this`record, this`holder, this`events
      ensures Valid() && events == old(events) + [Advance] && record == Some(owner)
      ensures holder == if old(holder).launch then Nobody else Place(true)
    {
      ghost var before := View();
      record := Some(owner);
      Note(before, Advance);
    }

    /** The package is placed, or that fails and a record made for it goes. */
    method PlacePackage(created: bool, fails: bool)
      requires Valid() && holder == Place(created)
      modifies this
      ensures Valid() && holder.Nobody? && old(events) <= events
      ensures record == if fails && created then None else old(record)
    {
      ghost var was := record;
      Around();
      ghost var before := View();
      assert record == was;
      if fails {
        if created { record := None; }
        Note(before, Break);
      } else {
        Note(before, Advance);
      }
    }

    /** A launch by a trusted signer finds itself the owner, or becomes it if
        nobody is and there is no data. */
    method RecordFirstOwner(signer: Owner) returns (ok: bool)
      requires Valid() && holder.Nobody?
      modifies this
      ensures Valid() && holder.Nobody? && old(events) + [Launch(signer)] <= events
      ensures ok ==> record == Some(signer)
      ensures old(record).Some? ==> record == old(record) && (ok <==> old(record) == Some(signer))
      ensures old(record).None? && !ok ==> record.None? && PassesData(old(View()), events[|old(events)|..])
    {
      hide PassesData, After, OutsideOf;
      Note(View(), Launch(signer));
      Around();
      var existing := record;
      Note(View(), Advance);
      if existing.Some? { return existing.value == signer; }
      ghost var before, looking := events, View();
      var found := ExistingAppData();
      if found {
        Later(old(events), old(View()), before, looking);
        return false;
      }
      Around();
      WriteOwner(signer);
      return true;
    }

    /** Releases the record of an app without data; one with data only when a
        launch moved the data between the looks. */
    method ReleaseOwnerWithoutData() returns (released: bool)
      requires Valid() && holder.Nobody?
      modifies this
      ensures Valid() && holder.Nobody? && old(events) + [Uninstall] <= events
      ensures if released then old(record).Some? && record == None else record == old(record)
      ensures old(record).Some? && !released ==> PassesData(old(View()), events[|old(events)|..])
      ensures released ==>
                var ran := events[|old(events)|..];
                PassesNoData(old(View()), ran) || MovesUnderRelease(old(View()), ran)
    {
      Note(View(), Uninstall);
      ghost var first, looking := events, View();
      var found := ExistingAppData();
      if found {
        Later(old(events), old(View()), first, looking);
        return false;
      }
      Around();
      ghost var before := View();
      released := record.Some?;
      record := None;
      Note(before, Advance);
      ghost var ran := events[|old(events)|..];
      assert events == old(events) + ran;
      AfterBoth(start, old(events), ran);
      if released && !PassesNoData(old(View()), ran) && !MovesUnderRelease(old(View()), ran) {
        ReleasedOnlyByMove(old(View()), ran);
        assert false;
      }
    }
  }
}
