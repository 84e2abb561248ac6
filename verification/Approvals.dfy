/** Approval records: their text, and what becomes of them over package
    operations and launches. */
module Approvals {
  import opened Options
  import opened Names
  import opened Capabilities
  import Inventory

  // ----- The record -----

  /** The characters Rust trims from text. */
  predicate IsSpace(c: char) {
    || '\t' <= c <= '\r' || c == ' ' || c == '\U{85}' || c == '\U{A0}' || c == '\U{1680}'
    || '\U{2000}' <= c <= '\U{200A}' || c == '\U{2028}' || c == '\U{2029}' || c == '\U{202F}'
    || c == '\U{205F}' || c == '\U{3000}'
  }

  function Trim(s: string): string {
    if s != "" && IsSpace(s[0]) then Trim(s[1..])
    else if s != "" && IsSpace(s[|s| - 1]) then Trim(s[..|s| - 1])
    else s
  }

  /** The entries on the lines of a text, blank ones aside. */
  function Entries(lines: seq<string>): set<string> {
    if lines == [] then {}
    else (if Trim(lines[0]) == "" then {} else {Trim(lines[0])}) + Entries(lines[1..])
  }

  /** What a record approves; a missing one approves nothing. */
  function Approved(record: Option<string>): set<string> {
    match record case None => {} case Some(text) => Entries(Split(text, '\n'))
  }

  predicate NeedsApproval(text: string) { Parse(text).Some? && !Parse(text).value.AppData? }

  function WriteLines(lines: seq<string>): string {
    if lines == [] then "" else lines[0] + "\n" + WriteLines(lines[1..])
  }

  lemma EntryTrimmed(text: string)
    requires NeedsApproval(text)
    ensures Trim(text) == text && text != "" && '\n' !in text
  {
    CapabilityCharacters(text);
    hide Parse;
    assert text[0] in text && text[|text| - 1] in text;
    assert IsSpace('\n');
  }

  /** What is written is read again. */
  lemma {:induction false} WrittenIsRead(lines: seq<string>)
    requires forall l :: l in lines ==> NeedsApproval(l)
    ensures forall l :: l in Entries(Split(WriteLines(lines), '\n')) <==> l in lines
  {
    hide NeedsApproval, Trim;
    if lines == [] {
      assert Split("", '\n') == [""] && [""][1..] == [];
      TrimNothing();
    } else {
      EntryTrimmed(lines[0]);
      SplitFirst(lines[0], WriteLines(lines[1..]), '\n');
      assert "\n" == ['\n'];
      WrittenIsRead(lines[1..]);
      var parts := Split(WriteLines(lines[1..]), '\n');
      assert ([lines[0]] + parts)[1..] == parts;
      assert lines == [lines[0]] + lines[1..];
    }
  }

  lemma TrimNothing()
    ensures Trim("") == ""
  {
  }

  /** A set kept in the order of its texts. */
  function Inserted(lines: seq<string>, text: string): seq<string> {
    if lines == [] || Inventory.Precedes(Inventory.Codes(text), Inventory.Codes(lines[0])) then [text] + lines
    else if lines[0] == text then lines
    else [lines[0]] + Inserted(lines[1..], text)
  }

  lemma {:induction false} InsertedHolds(lines: seq<string>, text: string)
    ensures forall l :: l in Inserted(lines, text) <==> l == text || l in lines
  {
    if lines != [] {
      InsertedHolds(lines[1..], text);
      assert lines == [lines[0]] + lines[1..];
    }
  }

  function Needing(declared: set<string>): set<string> { set c | c in declared && NeedsApproval(c) }

  function SetOf(texts: seq<string>): set<string> { set t | t in texts }

  /** What a package operation leaves approved. */
  function Settled(approved: set<string>, declared: set<string>, approve: bool): set<string> {
    if approve then Needing(declared) else if declared * approved == approved then approved else Needing(declared * approved)
  }

  /** What still keeps the app from launching, in declaration order. */
  function Unapproved(declared: seq<string>, approved: set<string>): seq<string> {
    if declared == [] then []
    else (if NeedsApproval(declared[0]) && declared[0] !in approved then [declared[0]] else [])
         + Unapproved(declared[1..], approved)
  }

  class ApprovalRecord {
    var text: Option<string>

    constructor ()
      ensures text == None
    {
      text := None;
    }

    /** Records exactly the capabilities that need approval; with none, there
        is no record. */
    method WriteApproved(declared: seq<string>)
      modifies this
      ensures Approved(text) == Needing(SetOf(declared))
      ensures text == None <==> Needing(SetOf(declared)) == {}
    {
      var approved: seq<string> := [];
      for i := 0 to |declared|
        invariant forall l :: l in approved <==> l in declared[..i] && NeedsApproval(l)
      {
        assert declared[..i + 1] == declared[..i] + [declared[i]];
        if NeedsApproval(declared[i]) {
          InsertedHolds(approved, declared[i]);
          approved := Inserted(approved, declared[i]);
        }
      }
      assert declared[..|declared|] == declared;
      if approved == [] {
        RemoveApproval();
      } else {
        WrittenIsRead(approved);
        assert approved[0] in Needing(SetOf(declared));
        text := Some(WriteLines(approved));
      }
    }

    /** Records the declared capabilities as approved, or drops from the
        approval what is no longer declared; reports what still needs it. */
    method SettleApproval(declared: seq<string>, approve: bool) returns (pending: seq<string>)
      modifies this
      ensures Approved(text) == Settled(Approved(old(text)), SetOf(declared), approve)
      ensures pending == if approve then [] else Unapproved(declared, Approved(old(text)))
    {
      if approve {
        WriteApproved(declared);
        return [];
      }
      var approved := Approved(text);
      var kept: seq<string> := [];
      for i := 0 to |declared|
        invariant forall l :: l in kept <==> l in declared[..i] && l in approved
        invariant text == old(text)
      {
        assert declared[..i + 1] == declared[..i] + [declared[i]];
        if declared[i] in approved {
          InsertedHolds(kept, declared[i]);
          kept := Inserted(kept, declared[i]);
        }
      }
      assert declared[..|declared|] == declared;
      assert SetOf(kept) == SetOf(declared) * approved;
      if SetOf(kept) != approved { WriteApproved(kept); }
      pending := Unapproved(declared, approved);
    }

    method RemoveApproval()
      modifies this
      ensures text == None
    {
      text := None;
    }
  }

  // ----- Runs -----

  /** What is approved, and what the active package declares. */
  datatype State = State(approved: set<string>, active: Option<seq<string>>)

  /** Package operations that completed. A rollback's argument is what the
      earlier revision declares; an approval's is the explicit list. */
  datatype Operation =
    | Install(declared: seq<string>, approve: bool)
    | Rollback(declared: seq<string>)
    | Approve(explicit: seq<string>)
    | Uninstall

  function Next(s: State, op: Operation): State {
    match op
    case Install(declared, approve) => State(Settled(s.approved, SetOf(declared), approve), Some(declared))
    case Rollback(declared) => State(Settled(s.approved, SetOf(declared), false), Some(declared))
    case Approve(explicit) =>
      if s.active.None? || !(forall c :: c in explicit ==> NeedsApproval(c) && c in s.active.value) then s
      else if explicit != [] then s.(approved := Settled(s.approved, s.approved + SetOf(explicit), true))
      else s.(approved := Settled(s.approved, SetOf(s.active.value), true))
    case Uninstall => State({}, None)
  }

  function After(s: State, ops: seq<Operation>): State
    decreases |ops|
  {
    if ops == [] then s else After(Next(s, ops[0]), ops[1..])
  }

  /** Only what needs approval and the active package declares is approved. */
  predicate Inv(s: State) {
    forall c :: c in s.approved ==> NeedsApproval(c) && s.active.Some? && c in s.active.value
  }

  lemma {:induction false} ApprovedIsDeclared(s: State, ops: seq<Operation>)
    requires Inv(s)
    ensures Inv(After(s, ops))
    decreases |ops|
  {
    if ops != [] { ApprovedIsDeclared(Next(s, ops[0]), ops[1..]); }
  }

  /** The operation approves `c`. */
  predicate Approves(s: State, op: Operation, c: string) {
    match op
    case Install(declared, approve) => approve && c in declared
    case Approve(explicit) => s.active.Some? && (c in explicit || (explicit == [] && c in s.active.value))
    case _ => false
  }

  predicate EverApproves(s: State, ops: seq<Operation>, c: string)
    decreases |ops|
  {
    ops != [] && (Approves(s, ops[0], c) || EverApproves(Next(s, ops[0]), ops[1..], c))
  }

  /** What is not approved stays so until an operation approves it. */
  lemma {:induction false} NotApprovedByItself(s: State, ops: seq<Operation>, c: string)
    requires c !in s.approved && !EverApproves(s, ops, c)
    ensures c !in After(s, ops).approved
    decreases |ops|
  {
    if ops != [] { NotApprovedByItself(Next(s, ops[0]), ops[1..], c); }
  }

  /** Everything in the vocabulary needs approval but private data. */
  lemma NeedsApprovalExactly(text: string)
    ensures NeedsApproval(text) <==> Parse(text).Some? && text != "fs:read:app-data" && text != "fs:rw:app-data"
  {
    DirTexts();
    if Parse(text).Some? { DisplayParse(text); }
    hide Parse;
  }

  /** Without approval, what is approved and still declared stays approved;
      with it, what is declared is approved. */
  lemma SettledExactly(approved: set<string>, declared: set<string>, c: string)
    requires forall a :: a in approved ==> NeedsApproval(a)
    ensures c in Settled(approved, declared, false) <==> c in approved && c in declared
    ensures c in Settled(approved, declared, true) <==> c in declared && NeedsApproval(c)
  {
    hide NeedsApproval;
    assert declared * approved == approved ==> forall a :: a in approved ==> a in declared * approved;
  }

  /** The operation takes away the approval of `c`. */
  predicate Drops(op: Operation, c: string) {
    match op
    case Install(declared, _) => c !in declared
    case Rollback(declared) => c !in declared
    case Approve(_) => false
    case Uninstall => true
  }

  predicate EverDrops(ops: seq<Operation>, c: string) { exists op :: op in ops && Drops(op, c) }

  /** What is approved stays so until an operation drops it. */
  lemma {:induction false} ApprovedStays(s: State, ops: seq<Operation>, c: string)
    requires Inv(s) && c in s.approved && !EverDrops(ops, c)
    ensures c in After(s, ops).approved
    decreases |ops|
  {
    if ops != [] {
      assert ops[0] in ops && ops == [ops[0]] + ops[1..];
      ApprovedIsDeclared(s, [ops[0]]);
      AfterFirst(s, ops[0]);
      OneApprovedStays(s, ops[0], c);
      ApprovedStays(Next(s, ops[0]), ops[1..], c);
    }
  }

  lemma AfterFirst(s: State, op: Operation)
    ensures After(s, [op]) == Next(s, op)
  {
    assert [op][1..] == [];
  }

  lemma OneApprovedStays(s: State, op: Operation, c: string)
    requires Inv(s) && c in s.approved && !Drops(op, c)
    ensures c in Next(s, op).approved
  {
    hide NeedsApproval, Settled;
    if op.Install? {
      SettledExactly(s.approved, SetOf(op.declared), c);
    } else if op.Rollback? {
      SettledExactly(s.approved, SetOf(op.declared), c);
    } else if op.Approve? && Next(s, op) != s {
      SettledExactly(s.approved, s.approved + SetOf(op.explicit), c);
      SettledExactly(s.approved, SetOf(s.active.value), c);
    }
  }

  /** Approving by name adds exactly the named capabilities, if the active
      package declares them all and they all need approval. */
  lemma ApprovedByName(s: State, explicit: seq<string>)
    requires Inv(s) && s.active.Some? && explicit != []
    ensures Next(s, Approve(explicit)).approved ==
              if forall c :: c in explicit ==> NeedsApproval(c) && c in s.active.value
              then s.approved + SetOf(explicit) else s.approved
  {
    hide NeedsApproval;
  }

  /** A launch is refused while a declared capability needs approval. */
  predicate LaunchAllowed(s: State) { s.active.Some? && Unapproved(s.active.value, s.approved) == [] }

  lemma {:induction false} AllowedExactly(declared: seq<string>, approved: set<string>)
    ensures Unapproved(declared, approved) == [] <==> forall c :: c in declared && NeedsApproval(c) ==> c in approved
  {
    if declared != [] {
      AllowedExactly(declared[1..], approved);
      assert declared == [declared[0]] + declared[1..];
    }
  }

  /** A capability an update or a rollback drops, declared again later, blocks
      the launch until it is approved anew. */
  lemma DroppedIsAskedAgain(s: State, drop: Operation, ops: seq<Operation>, c: string)
    requires Inv(s) && NeedsApproval(c)
    requires drop.Install? || drop.Rollback? || drop.Uninstall?
    requires !drop.Uninstall? ==> c !in drop.declared
    requires var t := Next(s, drop); !EverApproves(t, ops, c)
    requires var u := After(Next(s, drop), ops); u.active.Some? && c in u.active.value
    ensures !LaunchAllowed(After(Next(s, drop), ops))
  {
    var t := Next(s, drop);
    assert c !in t.approved;
    NotApprovedByItself(t, ops, c);
    var u := After(t, ops);
    AllowedExactly(u.active.value, u.approved);
  }

  /** Once every declared capability that needs approval is approved, the
      launch goes ahead. */
  lemma ApprovedLaunches(s: State)
    requires s.active.Some?
    ensures LaunchAllowed(Next(s, Approve([])))
  {
    AllowedExactly(s.active.value, Next(s, Approve([])).approved);
  }

  /** So does a package installed with approval. */
  lemma InstalledWithApprovalLaunches(s: State, declared: seq<string>)
    ensures LaunchAllowed(Next(s, Install(declared, true)))
  {
    AllowedExactly(declared, Next(s, Install(declared, true)).approved);
  }
}
