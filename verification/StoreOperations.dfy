/** The package operations on a store, one system call at a time. Before each
    call any number of launches take steps, and the call may fail. */
module StoreOperations {
  import opened Options
  import opened Store

  /** What happens around one system call: the steps of launches before it,
      whether it fails, and what a removal of files has left so far. */
  datatype Turn = Turn(launches: seq<Action>, fails: bool, remains: Tree)

  function Faults(turns: seq<Turn>): nat {
    if turns == [] then 0 else (if turns[0].fails then 1 else 0) + Faults(turns[1..])
  }

  /** What the launches of a turn have done so far. */
  function ActedOn(fs: Fs, launches: seq<Action>): Fs {
    if launches == [] then fs else Act(ActedOn(fs, launches[..|launches| - 1]), launches[|launches| - 1])
  }

  /** What a store offers: the active package and the rollback link. */
  datatype Choice = Choice(active: Active, package: Package, previous: Option<Node>)

  function Chosen(d: Disk): Choice { Choice(ActiveIn(d), Resolves(d), Lookup(d, Previous)) }

  /** The states from `n` on offer one of two choices. */
  ghost predicate Offers(states: seq<Fs>, n: nat, b: Choice, c: Choice) {
    forall k :: n <= k < |states| ==> Chosen(states[k].disk) == b || Chosen(states[k].disk) == c
  }

  /** On the way from choice `b` to revision `r`: a launch finds what it found
      before or `r`, and the revision active before is still linked. */
  predicate OnTheWay(b: Choice, r: Digest, c: Choice) {
    && (c.package == b.package || c.package == RevisionPackage(r))
    && (b.active.Revision? ==> c.active == b.active || c.previous == Some(Link(b.active.name)))
  }

  ghost predicate AllOnTheWay(states: seq<Fs>, n: nat, b: Choice, r: Digest) {
    forall k :: n <= k < |states| ==> OnTheWay(b, r, Chosen(states[k].disk))
  }

  lemma SameOffer(b: Choice, r: Digest, c: Choice)
    requires c.active == b.active && c.package == b.package
    ensures OnTheWay(b, r, c)
  {
  }

  lemma OnTheWayTo(b: Choice, r: Digest, c: Choice)
    requires c.active == Revision(r) && c.package == RevisionPackage(r)
    requires b.active.Revision? && b.active.name != r ==> c.previous == Some(Link(b.active.name))
    ensures OnTheWay(b, r, c)
  {
  }

  lemma StayOnTheWay(before: seq<Fs>, after: seq<Fs>, n: nat, b: Choice, r: Digest, c: Choice, d: Choice)
    requires before <= after && n <= |before|
    requires AllOnTheWay(before, n, b, r)
    requires Offers(after, |before|, c, d) && OnTheWay(b, r, c) && OnTheWay(b, r, d)
    ensures AllOnTheWay(after, n, b, r)
  {
  }

  lemma StillOffers(before: seq<Fs>, after: seq<Fs>, n: nat, c: Choice, d: Choice)
    requires before <= after && n <= |before|
    requires Offers(before, n, c, d) && Offers(after, |before|, c, d)
    ensures Offers(after, n, c, d)
  {
  }

  lemma OffersEither(states: seq<Fs>, n: nat, b: Choice, c: Choice)
    ensures Offers(states, n, b, b) ==> Offers(states, n, b, c) && Offers(states, n, c, b)
    ensures Offers(states, n, b, c) ==> Offers(states, n, c, b)
  {
  }

  lemma OffersNothing(states: seq<Fs>, b: Choice, c: Choice)
    ensures Offers(states, |states|, b, c)
  {
  }

  lemma OnTheWayNowhere(states: seq<Fs>, b: Choice, r: Digest)
    ensures AllOnTheWay(states, |states|, b, r)
  {
  }

  lemma ChosenParts(d: Disk)
    ensures Chosen(d).previous == Lookup(d, Previous) && Chosen(d).active == ActiveIn(d) && Chosen(d).package == Resolves(d)
  {
  }

  lemma ChosenPrevious(d: Disk)
    ensures Chosen(d).previous == Lookup(d, Previous)
  {
  }

  /** What the rollback link is once `r` has become active. */
  function KeptAfter(d: Disk, r: Digest): Option<Node> {
    match ActiveIn(d)
    case Revision(c) => if c != r then Some(Link(c)) else Lookup(d, Previous)
    case _ => None
  }

  /** The package directory an activation replaces. */
  function ReplacedDir(d: Disk): set<Inode> {
    match ActiveIn(d) case Directory(i) => {i} case _ => {}
  }

  /** The revision kept for rollback, if it is there. */
  function PreviousRevision(d: Disk): Option<Digest> {
    match Lookup(d, Previous)
    case Some(Link(r)) => if Rev(r) in d.names && d.names[Rev(r)].Dir? then Some(r) else None
    case _ => None
  }

  function Keep(d: Disk): seq<Digest> {
    (match ActiveIn(d) case Revision(name) => [name] case _ => [])
    + (match PreviousRevision(d) case Some(name) => [name] case None => [])
  }

  /** What is kept is what a link names. */
  lemma KeepNamed(d: Disk, keep: seq<Digest>)
    requires WellFormed(d) && keep == Keep(d)
    ensures forall r :: r in keep <==> Named(d, r)
  {
    forall r | Named(d, r) ensures r in keep { assert Intact(d, r); }
  }

  predicate CanRollBack(c: Choice) {
    c.active.Revision? && c.previous.Some? && c.previous.value.Link? && c.previous.value.target != c.active.name
  }

  /** The active revision and the one kept for rollback have changed places. */
  predicate RolledBack(b: Choice, c: Choice) {
    && CanRollBack(b) && b.package == RevisionPackage(b.active.name)
    && c == Choice(Revision(b.previous.value.target), RevisionPackage(b.previous.value.target), Some(Link(b.active.name)))
  }

  lemma LinkChosen(d: Disk, r: Digest)
    requires WellFormed(d) && Lookup(d, Entry) == Some(Link(r))
    ensures Chosen(d) == Choice(Revision(r), RevisionPackage(r), Lookup(d, Previous))
  {
    assert Named(d, r);
  }

  lemma CannotRollBack(d: Disk)
    requires WellFormed(d)
    ensures CanRollBack(Chosen(d)) <==>
              && ActiveIn(d).Revision? && PreviousRevision(d).Some?
              && PreviousRevision(d).value != ActiveIn(d).name
  {
    if Previous in d.names && d.names[Previous].Link? { NamedIntact(d, d.names[Previous].target); }
  }

  /** A checked copy of a package, held against collection. */
  predicate Staged(d: Disk, staging: Path) {
    && staging.Staging? && staging in d.names && d.names[staging].Dir?
    && d.names[staging].inode in d.claims
    && Contents(d, d.names[staging].inode).Files?
  }

  function StagedTree(d: Disk, staging: Path): Tree
    requires Staged(d, staging)
    ensures StagedTree(d, staging).Files?
  {
    Contents(d, d.names[staging].inode)
  }

  /** The revision named by the content of `tree` holds it, signature included. */
  predicate SameRevision(d: Disk, tree: Tree) {
    tree.Files? && Intact(d, tree.digest)
    && Contents(d, d.names[Rev(tree.digest)].inode).signature == tree.signature
  }

  /** A package directory may be replaced once it is claimed and its data is out. */
  predicate Replaceable(fs: Fs) {
    match ActiveIn(fs.disk)
    case Directory(i) => i in fs.disk.claims && i !in fs.legacy
    case _ => true
  }

  lemma OnTheWayAlong(before: seq<Fs>, after: seq<Fs>, n: nat, b: Choice, r: Digest)
    requires before <= after && n <= |before|
    requires AllOnTheWay(before, n, b, r) && AllOnTheWay(after, |before|, b, r)
    ensures AllOnTheWay(after, n, b, r)
  {
  }

  lemma NothingLost(before: seq<Fs>, after: seq<Fs>)
    requires Run(after) && before <= after && |before| > 0
    ensures Held(before[|before| - 1]) <= Held(after[|after| - 1])
  {
    RunKeeps(after, |before| - 1, |after| - 1);
  }

  predicate Scratch(p: Path) { p.PreviousTmp? || p.Trash? }

  /** Apart from `ps`, the directories `is`, and scratch names, nothing changed. */
  ghost predicate Unchanged(d: Disk, e: Disk, ps: set<Path>, dirs: set<Inode>) {
    && (forall p :: p !in ps && !Scratch(p) ==> Lookup(e, p) == Lookup(d, p))
    && (forall i :: i !in dirs ==> Contents(e, i) == Contents(d, i))
    && e.claims == d.claims
    && d.next <= e.next && d.inodes == e.inodes
  }

  lemma IntactStays(d: Disk, e: Disk, ps: set<Path>, dirs: set<Inode>, r: Digest)
    requires Intact(d, r) && Unchanged(d, e, ps, dirs)
    requires Rev(r) !in ps && d.names[Rev(r)].inode !in dirs
    ensures Intact(e, r)
  {
    assert Lookup(e, Rev(r)) == Lookup(d, Rev(r));
  }

  lemma UnchangedAlong(d: Disk, e: Disk, f: Disk, ps: set<Path>, qs: set<Path>, rs: set<Path>, dirs: set<Inode>, more: set<Inode>)
    requires Unchanged(d, e, ps, dirs) && Unchanged(e, f, qs, more) && ps <= rs && qs <= rs
    ensures Unchanged(d, f, rs, dirs + more)
    ensures dirs == {} ==> Unchanged(d, f, rs, more)
  {
  }

  lemma UnchangedAt(d: Disk, e: Disk, ps: set<Path>, dirs: set<Inode>, p: Path)
    requires Unchanged(d, e, ps, dirs) && p !in ps && !Scratch(p)
    ensures Lookup(e, p) == Lookup(d, p) && e.claims == d.claims
  {
  }

  lemma TidyUnchanged(d: Disk, e: Disk, f: Disk, link: Path)
    requires link.ActiveTmp? && Unchanged(d, e, {Previous, link} + {Entry}, {})
    requires Unchanged(e, f, {link}, ReplacedDir(d))
    ensures Unchanged(d, f, {Previous, link} + {Entry}, ReplacedDir(d))
    ensures Lookup(f, Entry) == Lookup(e, Entry) && Lookup(f, Previous) == Lookup(e, Previous)
  {
  }

  lemma LinkedUnchanged(d: Disk, p: Path, target: Digest)
    requires p.ActiveTmp? || p.PreviousTmp?
    ensures Unchanged(d, Linked(d, p, target), {p}, {})
  {
  }

  lemma NothingUnchanged(d: Disk, ps: set<Path>)
    ensures Unchanged(d, d, ps, {})
  {
  }

  lemma LinkedIntact(d: Disk, p: Path, target: Digest)
    requires (p.ActiveTmp? || p.PreviousTmp?)
    ensures forall r :: Intact(d, r) ==> Intact(Linked(d, p, target), r)
  {
  }

  /** The links stay, and a revision is gone or what it was. */
  ghost predicate Swept(d: Disk, e: Disk) {
    && Lookup(e, Entry) == Lookup(d, Entry) && Lookup(e, Previous) == Lookup(d, Previous)
    && e.claims == d.claims
    && (forall r :: Rev(r) in e.names ==>
          Lookup(e, Rev(r)) == Lookup(d, Rev(r))
          && (e.names[Rev(r)].Dir? ==> Contents(e, e.names[Rev(r)].inode) == Contents(d, e.names[Rev(r)].inode)))
  }

  lemma SweptOne(start: Disk, d: Disk, e: Disk, p: Path, i: Inode)
    requires WellFormed(d) && Swept(start, d) && Holds(d, p, i)
    requires p != Entry && p != Previous && Unchanged(d, e, {p}, {i})
    requires p.Rev? && p in e.names ==> Holds(e, p, i) && Contents(e, i) == Contents(d, i)
    ensures Swept(start, e)
  {
    forall r | Rev(r) in e.names
      ensures Lookup(e, Rev(r)) == Lookup(d, Rev(r))
      ensures e.names[Rev(r)].Dir? ==> Contents(e, e.names[Rev(r)].inode) == Contents(d, e.names[Rev(r)].inode)
    {
      if Rev(r) != p {
        assert Lookup(e, Rev(r)) == Lookup(d, Rev(r));
        if d.names[Rev(r)] == Dir(i) { OneName(d, p, Rev(r)); }
      }
    }
  }

  /** Some state from `n` on has a session with the directory locked. */
  ghost predicate BusySince(states: seq<Fs>, n: nat, i: Inode) {
    exists k :: n <= k < |states| && Shared(states[k], i)
  }

  lemma BusyStill(before: seq<Fs>, after: seq<Fs>, n: nat, m: nat, i: Inode)
    requires before <= after && n <= m
    ensures BusySince(before, m, i) ==> BusySince(after, n, i)
  {
    if BusySince(before, m, i) {
      var k :| m <= k < |before| && Shared(before[k], i);
      assert Shared(after[k], i);
    }
  }

  /** Some state from `n` on has the directory claimed. */
  ghost predicate ClaimedSince(states: seq<Fs>, n: nat, i: Inode) {
    exists k :: n <= k < |states| && i in states[k].disk.claims
  }

  lemma ClaimedStill(before: seq<Fs>, after: seq<Fs>, n: nat, i: Inode)
    requires before <= after && ClaimedSince(before, n, i)
    ensures ClaimedSince(after, n, i)
  {
    var k :| n <= k < |before| && i in before[k].disk.claims;
    assert i in after[k].disk.claims;
  }

  /** What keeps a package directory where it is: a session that runs from it,
      or data that may not be moved or has no room at home. */
  ghost predicate DirectoryHinders(was: Fs, now: Fs, states: seq<Fs>, n: nat, mayMove: bool) {
    match ActiveIn(was.disk)
    case Directory(i) => BusySince(states, n, i) || (i in was.legacy && (!mayMove || now.home.Some?))
    case _ => false
  }

  /** A session runs from what is under the revision's name, which is not the
      package to be placed. */
  ghost predicate RevisionHinders(d: Disk, states: seq<Fs>, n: nat, tree: Tree) {
    && tree.Files? && !SameRevision(d, tree)
    && Rev(tree.digest) in d.names && d.names[Rev(tree.digest)].Dir?
    && BusySince(states, n, d.names[Rev(tree.digest)].inode)
  }

  /** What keeps a package from being installed, faults and its owner aside. */
  ghost predicate Hindered(was: Fs, now: Fs, states: seq<Fs>, n: nat, tree: Tree, mayMove: bool) {
    || ActiveIn(was.disk) == NotAPackage
    || DirectoryHinders(was, now, states, n, mayMove)
    || RevisionHinders(was.disk, states, n, tree)
  }

  lemma DirectoryStill(was: Fs, mid: Fs, now: Fs, before: seq<Fs>, after: seq<Fs>, n: nat, mayMove: bool)
    requires before <= after && (mid.home.Some? ==> now.home.Some?)
    ensures DirectoryHinders(was, mid, before, n, mayMove) ==> DirectoryHinders(was, now, after, n, mayMove)
  {
    if ActiveIn(was.disk).Directory? { BusyStill(before, after, n, n, ActiveIn(was.disk).inode); }
  }

  lemma HinderedStill(was: Fs, mid: Fs, now: Fs, before: seq<Fs>, after: seq<Fs>, n: nat, tree: Tree, mayMove: bool)
    requires before <= after && (mid.home.Some? ==> now.home.Some?)
    ensures Hindered(was, mid, before, n, tree, mayMove) ==> Hindered(was, now, after, n, tree, mayMove)
  {
    DirectoryStill(was, mid, now, before, after, n, mayMove);
    HindersStill(was.disk, before, after, n, n, tree);
  }

  /** Copying the package into the store hinders nothing. */
  lemma CopiedHinders(was: Fs, mid: Fs, now: Fs, states: seq<Fs>, n: nat, m: nat, tree: Tree, mayMove: bool)
    requires n <= m && mid.disk == Copied(was.disk, tree) && WellFormed(was.disk)
    requires mid.legacy.Keys <= was.legacy.Keys
    ensures Hindered(mid, now, states, m, tree, mayMove) ==> Hindered(was, now, states, n, tree, mayMove)
  {
    if Hindered(mid, now, states, m, tree, mayMove) {
      assert ActiveIn(mid.disk) == ActiveIn(was.disk);
      if ActiveIn(was.disk).Directory? { BusyStill(states, states, n, m, ActiveIn(was.disk).inode); }
      CopiedSame(was.disk, tree);
      HindersStill(was.disk, states, states, n, m, tree);
    }
  }

  lemma CopiedSame(d: Disk, tree: Tree)
    requires WellFormed(d)
    ensures var e := Copied(d, tree);
      && (SameRevision(e, tree) <==> SameRevision(d, tree))
      && forall r :: Lookup(e, Rev(r)) == Lookup(d, Rev(r))
  {
  }

  lemma HindersStill(d: Disk, before: seq<Fs>, after: seq<Fs>, n: nat, m: nat, tree: Tree)
    requires before <= after && n <= m
    ensures RevisionHinders(d, before, m, tree) ==> RevisionHinders(d, after, n, tree)
  {
    if RevisionHinders(d, before, m, tree) { BusyStill(before, after, n, m, d.names[Rev(tree.digest)].inode); }
  }

  /** The operation itself holds what is under the revision's name. */
  predicate RevisionClaimed(d: Disk, tree: Tree) {
    && tree.Files? && Rev(tree.digest) in d.names && d.names[Rev(tree.digest)].Dir?
    && d.names[Rev(tree.digest)].inode in d.claims
  }

  /** Some state from `n` on has a session on the revision `r`. */
  ghost predicate UsedSince(states: seq<Fs>, n: nat, r: Digest) {
    exists k, i :: n <= k < |states| && Holds(states[k].disk, Rev(r), i) && Shared(states[k], i)
  }

  /** Names only go. */
  ghost predicate Fewer(d: Disk, e: Disk) {
    forall p :: p in e.names ==> p in d.names && e.names[p] == d.names[p]
  }

  /** A visited entry is gone, unless it is kept or in use. */
  ghost predicate EntryDone(d: Disk, e: Disk, p: Path, keep: seq<Digest>, inUse: bool) {
    && Fewer(d, e)
    && (p.PreviousTmp? ==> Lookup(e, p) == None)
    && (p.Rev? && p.revision !in keep && !inUse ==> Lookup(e, p) == None)
  }

  /** A temporary name that may outlast a collection: a directory that is not
      old enough, or that a session had locked. */
  ghost predicate Excused(d: Disk, p: Path, aged: bool, states: seq<Fs>, n: nat) {
    && p in d.names && d.names[p].Dir?
    && ((!p.ActiveTmp? && !aged) || BusySince(states, n, d.names[p].inode))
  }

  ghost predicate Leftovers(d: Disk, todo: set<Path>, aged: set<Path>, states: seq<Fs>, n: nat) {
    forall p :: p in d.names && Temporary(p) ==> p in todo || Excused(d, p, p in aged, states, n)
  }

  /** What a collection leaves: the revisions a link names and the spared ones,
      each used by a session since `n`, and excused temporary names. */
  ghost predicate Collected(d: Disk, spared: set<Digest>, aged: set<Path>, states: seq<Fs>, n: nat) {
    && (forall r :: Lookup(d, Rev(r)).Some? <==> Named(d, r) || r in spared)
    && AllUsed(states, n, spared)
    && Leftovers(d, {}, aged, states, n)
  }

  /** A revision that is in use all along, or never, is left exactly when a
      link names it or it is in use. */
  lemma UnchangedUseDecides(states: seq<Fs>, n: nat, spared: set<Digest>, aged: set<Path>, r: Digest, i: Inode)
    requires Run(states) && n < |states| && Holds(states[n].disk, Rev(r), i)
    requires var d := states[|states| - 1].disk; Collected(d, spared, aged, states, n)
    requires (forall k {:trigger states[k]} :: n <= k < |states| ==> Shared(states[k], i)) || !UsedSince(states, n, r)
    ensures var d := states[|states| - 1].disk;
      Lookup(d, Rev(r)).Some? <==> Named(d, r) || Shared(states[n], i)
  {
    hide Leftovers, Run, Named;
    if forall k {:trigger states[k]} :: n <= k < |states| ==> Shared(states[k], i) {
      LockedStays(states, n, |states| - 1, Rev(r), i);
    }
  }

  /** In between it may go: the only session on it ends, and a collection that
      comes to it afterwards removes it. */
  lemma EndedUseIsCollected(fs: Fs, id: nat, r: Digest, i: Inode) returns (states: seq<Fs>)
    requires Inv(fs) && fs.sessions == map[id := Locked(Rev(r), i)] && fs.disk.claims == {}
    requires Holds(fs.disk, Rev(r), i) && !Named(fs.disk, r)
    ensures Run(states) && states[0] == fs && UsedSince(states, 0, r)
    ensures Lookup(states[|states| - 1].disk, Rev(r)) == None
  {
    var unused := Act(fs, Exit(id));
    var claimed, dropped := RemovalSteps(unused, r, i);
    UsedAtFirst(fs, id, r, i);
    hide Step, Inv, WellFormed, Shared;
    ActIsStep(fs, Exit(id));
    assert Run([fs]);
    RunGoesOn([fs], unused);
    RunGoesOn([fs] + [unused], claimed);
    states := [fs] + [unused] + [claimed] + [dropped];
    RunGoesOn([fs] + [unused] + [claimed], dropped);
    assert Holds(states[0].disk, Rev(r), i);
  }

  lemma UsedAtFirst(fs: Fs, id: nat, r: Digest, i: Inode)
    requires fs.sessions == map[id := Locked(Rev(r), i)]
    ensures Shared(fs, i)
  {
    assert id in fs.sessions && !fs.sessions[id].Opened? && fs.sessions[id].inode == i;
  }

  /** Nobody uses the revision, which is claimed and goes. */
  lemma RemovalSteps(fs: Fs, r: Digest, i: Inode) returns (claimed: Fs, dropped: Fs)
    requires WellFormed(fs.disk) && fs.sessions == map[] && Holds(fs.disk, Rev(r), i) && !Named(fs.disk, r)
    requires forall j :: j in fs.legacy ==> Holds(fs.disk, Entry, j)
    ensures Step(fs, claimed) && Step(claimed, dropped)
    ensures dropped.disk == Dropped(claimed.disk, Rev(r)) && claimed.disk == Claimed(fs.disk, i)
  {
    claimed := fs.(disk := Claimed(fs.disk, i));
    dropped := claimed.(disk := Dropped(claimed.disk, Rev(r)));
    ClaimsAside(fs.disk, claimed.disk.claims);
    DroppedCareful(claimed.disk, Rev(r));
    hide WellFormed, Careful;
    assert OperationStep(fs, claimed);
    assert OperationStep(claimed, dropped);
  }

  lemma LeftoversEarlier(d: Disk, aged: set<Path>, states: seq<Fs>, n: nat, m: nat)
    requires n <= m && Leftovers(d, {}, aged, states, m)
    ensures Leftovers(d, {}, aged, states, n)
  {
    forall p | p in d.names && Temporary(p) ensures Excused(d, p, p in aged, states, n) {
      assert Excused(d, p, p in aged, states, m);
      BusyStill(states, states, n, m, d.names[p].inode);
    }
  }

  lemma CollectedEarlier(d: Disk, spared: set<Digest>, aged: set<Path>, states: seq<Fs>, n: nat, m: nat)
    requires n <= m && Collected(d, spared, aged, states, m)
    ensures Collected(d, spared, aged, states, n)
  {
    UsedEarlier(states, n, m, spared);
    LeftoversEarlier(d, aged, states, n, m);
  }

  lemma LeftoverOne(d: Disk, e: Disk, todo: set<Path>, p: Path, aged: set<Path>, before: seq<Fs>, after: seq<Fs>, n: nat, m: nat)
    requires before <= after && n <= m
    requires Leftovers(d, todo, aged, before, n) && Fewer(d, e)
    requires p in e.names ==> Excused(e, p, p in aged, after, m)
    ensures Leftovers(e, todo - {p}, aged, after, n)
  {
    forall q | q in e.names && Temporary(q) && q !in todo - {p} ensures Excused(e, q, q in aged, after, n) {
      if q == p {
        BusyStill(after, after, n, m, e.names[q].inode);
      } else {
        assert Excused(d, q, q in aged, before, n);
        BusyStill(before, after, n, n, e.names[q].inode);
      }
    }
  }

  lemma LeftoversAtFirst(d: Disk, todo: set<Path>, aged: set<Path>, states: seq<Fs>, n: nat)
    requires todo == set p | p in d.names && (p.ActiveTmp? || p.Staging? || p.Trash?)
    requires forall p: Path :: Lookup(d, p).Some? ==> !p.PreviousTmp?
    ensures Leftovers(d, todo, aged, states, n)
  {
    forall p | p in d.names && Temporary(p) ensures p in todo { assert Lookup(d, p).Some?; }
  }

  /** Revision entries still to visit are there, and of the revisions the
      visited ones were kept or spared. */
  ghost predicate Visiting(d: Disk, todo: set<Path>) {
    forall p :: p in todo ==> p.PreviousTmp? || ((p == Previous || p.Rev?) && Lookup(d, p).Some?)
  }

  ghost predicate Visited(d: Disk, todo: set<Path>, keep: seq<Digest>, spared: set<Digest>) {
    && (forall r :: Lookup(d, Rev(r)).Some? ==> Rev(r) in todo || r in keep || r in spared)
    && (forall p: Path :: p.PreviousTmp? && Lookup(d, p).Some? ==> p in todo)
  }

  ghost predicate SparedStay(d: Disk, todo: set<Path>, spared: set<Digest>) {
    forall r :: r in spared ==> Rev(r) !in todo && Lookup(d, Rev(r)).Some?
  }

  lemma VisitAll(d: Disk, todo: set<Path>, keep: seq<Digest>)
    requires todo == set p | p in d.names && (p == Previous || p.PreviousTmp? || p.Rev?)
    ensures Visiting(d, todo) && Visited(d, todo, keep, {}) && SparedStay(d, todo, {})
  {
  }

  lemma VisitedKind(d: Disk, todo: set<Path>, p: Path)
    requires Visiting(d, todo) && p in todo
    ensures p.PreviousTmp? || ((p == Previous || p.Rev?) && Lookup(d, p).Some?)
  {
  }

  lemma VisitedAll(d: Disk, keep: seq<Digest>, spared: set<Digest>)
    requires Visiting(d, {}) && SparedStay(d, {}, spared)
    ensures forall r :: r in spared ==> Lookup(d, Rev(r)).Some?
    ensures Visited(d, {}, keep, spared) ==> forall r :: Lookup(d, Rev(r)).Some? ==> r in keep || r in spared
    ensures Visited(d, {}, keep, spared) ==> forall p: Path :: Lookup(d, p).Some? ==> !p.PreviousTmp?
  {
  }

  lemma VisitOne(d: Disk, e: Disk, todo: set<Path>, keep: seq<Digest>, spared: set<Digest>, p: Path, inUse: bool)
    requires Visiting(d, todo) && p in todo && SparedStay(d, todo, spared)
    requires forall q :: q != p && !Scratch(q) ==> Lookup(e, q) == Lookup(d, q)
    requires inUse ==> e == d
    ensures Visiting(e, todo - {p})
    ensures SparedStay(e, todo - {p}, spared + if inUse && p.Rev? then {p.revision} else {})
    ensures Visited(d, todo, keep, spared) && EntryDone(d, e, p, keep, inUse) ==>
              Visited(e, todo - {p}, keep, spared + if inUse && p.Rev? then {p.revision} else {})
  {
    if EntryDone(d, e, p, keep, inUse) { FewerLookups(d, e); }
  }

  lemma FewerLookups(d: Disk, e: Disk)
    requires Fewer(d, e)
    ensures forall p :: Lookup(e, p).Some? ==> Lookup(d, p) == Lookup(e, p)
  {
  }

  lemma SweptNothing(d: Disk)
    ensures Swept(d, d)
  {
  }

  lemma SweptLinks(d: Disk, e: Disk)
    requires Swept(d, e)
    ensures e.claims == d.claims && forall r :: Named(e, r) <==> Named(d, r)
  {
  }

  lemma SweptAlong(d: Disk, e: Disk, f: Disk)
    requires Swept(d, e) && Swept(e, f)
    ensures Swept(d, f)
  {
    forall r | Rev(r) in f.names
      ensures Lookup(f, Rev(r)) == Lookup(d, Rev(r))
      ensures f.names[Rev(r)].Dir? ==> Contents(f, f.names[Rev(r)].inode) == Contents(d, f.names[Rev(r)].inode)
    {
      assert Lookup(f, Rev(r)) == Lookup(e, Rev(r));
      assert Rev(r) in e.names;
    }
  }

  ghost predicate AllUsed(states: seq<Fs>, n: nat, rs: set<Digest>) {
    forall r :: r in rs ==> UsedSince(states, n, r)
  }

  lemma NoneUsed(states: seq<Fs>, n: nat)
    ensures AllUsed(states, n, {})
  {
  }

  lemma UsedEarlier(states: seq<Fs>, n: nat, m: nat, rs: set<Digest>)
    requires n <= m && AllUsed(states, m, rs)
    ensures AllUsed(states, n, rs)
  {
    forall r | r in rs ensures UsedSince(states, n, r) {
      var k, i :| m <= k < |states| && Holds(states[k].disk, Rev(r), i) && Shared(states[k], i);
      assert n <= k;
    }
  }

  lemma UsedStill(before: seq<Fs>, after: seq<Fs>, n: nat, rs: set<Digest>, m: nat, more: set<Digest>)
    requires before <= after && n <= m
    requires AllUsed(before, n, rs) && forall r :: r in more ==> UsedSince(after, m, r)
    ensures AllUsed(after, n, rs + more)
  {
    forall r | r in rs + more ensures UsedSince(after, n, r) {
      if r in rs {
        var k, i :| n <= k < |before| && Holds(before[k].disk, Rev(r), i) && Shared(before[k], i);
        assert Holds(after[k].disk, Rev(r), i) && Shared(after[k], i);
      } else {
        var k, i :| m <= k < |after| && Holds(after[k].disk, Rev(r), i) && Shared(after[k], i);
        assert n <= k;
      }
    }
  }

  lemma OneName(d: Disk, p: Path, q: Path)
    requires WellFormed(d) && p in d.names && q in d.names && d.names[p].Dir? && d.names[p] == d.names[q]
    ensures p == q
  {
  }

  lemma NamedIntact(d: Disk, r: Digest)
    requires WellFormed(d) && Named(d, r)
    ensures Intact(d, r)
  {
  }

  lemma Unused(d: Disk, p: Path)
    requires WellFormed(d) && Temporary(p) && p.n >= d.next
    ensures p !in d.names
  {
  }

  /** Only one directory is the package directory. */
  lemma OtherEntry(d: Disk, p: Path)
    requires WellFormed(d) && p in d.names && d.names[p].Dir? && p != Entry
    ensures !Holds(d, Entry, d.names[p].inode)
  {
  }

  lemma NamedThere(d: Disk)
    requires WellFormed(d)
    ensures forall r :: Named(d, r) ==> Lookup(d, Rev(r)).Some?
  {
    forall r | Named(d, r) ensures Lookup(d, Rev(r)).Some? { assert Intact(d, r); }
  }

  lemma Kinds(d: Disk, p: Path)
    requires WellFormed(d) && p in d.names
    ensures Fits(p, d.names[p]) && (Temporary(p) ==> p.n < d.next)
  {
  }

  /** What decides the choice: the two links, and a package directory's files. */
  lemma SameChoice(d: Disk, e: Disk)
    requires WellFormed(d) && WellFormed(e)
    requires Lookup(d, Entry) == Lookup(e, Entry)
    requires Entry in d.names && d.names[Entry].Dir? ==>
               Contents(d, d.names[Entry].inode) == Contents(e, d.names[Entry].inode)
    ensures Chosen(e) == Chosen(d).(previous := Lookup(e, Previous))
    ensures Lookup(d, Previous) == Lookup(e, Previous) ==> Chosen(e) == Chosen(d)
  {
    if Entry in d.names && d.names[Entry].Link? {
      assert Named(d, d.names[Entry].target) && Named(e, d.names[Entry].target);
    }
  }

  lemma LinkedChoice(d: Disk, p: Path, target: Digest)
    requires p.ActiveTmp? || p.PreviousTmp?
    ensures Chosen(Linked(d, p, target)) == Chosen(d)
  {
  }

  lemma RewrittenChoice(d: Disk, p: Path, tree: Tree)
    requires WellFormed(d) && Free(d, p) && d.names[p].Dir? && p != Entry
    ensures Chosen(Rewritten(d, d.names[p].inode, tree)) == Chosen(d)
  {
    OtherEntry(d, p);
  }

  lemma DroppedChoice(d: Disk, p: Path)
    requires Free(d, p) && p != Entry
    ensures Chosen(Dropped(d, p)) == Chosen(d).(previous := if p == Previous then None else Lookup(d, Previous))
    ensures p != Previous ==> Chosen(Dropped(d, p)) == Chosen(d)
  {
  }

  /** Once a link to an intact revision is the active one, that is the choice. */
  lemma SwitchedChoice(d: Disk, link: Path, r: Digest)
    requires link.ActiveTmp? && Lookup(d, link) == Some(Link(r)) && Intact(d, r)
    ensures Chosen(Moved(d, link, Entry)) == Choice(Revision(r), RevisionPackage(r), Lookup(d, Previous))
    ensures Entry in d.names ==>
              Chosen(Exchanged(d, link, Entry)) == Choice(Revision(r), RevisionPackage(r), Lookup(d, Previous))
  {
  }

  /** What an activation, done or given up, leaves of the revision `r`. */
  lemma Activated(d: Disk, e: Disk, r: Digest, ok: bool)
    requires WellFormed(d) && WellFormed(e) && Intact(d, r)
    requires Unchanged(d, e, {Previous, ActiveTmp(d.next)} + if ok then {Entry} else {}, if ok then ReplacedDir(d) else {})
    ensures Lookup(e, Rev(r)) == Lookup(d, Rev(r)) && e.claims == d.claims
    ensures Contents(e, d.names[Rev(r)].inode) == Contents(d, d.names[Rev(r)].inode)
    ensures !ok ==> Lookup(e, Entry) == Lookup(d, Entry)
    ensures !ok ==> forall i :: Contents(e, i) == Contents(d, i)
  {
    if Entry in d.names && d.names[Entry] == d.names[Rev(r)] { OneName(d, Entry, Rev(r)); }
  }

  lemma SameRevisionAt(d: Disk, tree: Tree)
    ensures SameRevision(d, tree) ==> tree.Files? && Rev(tree.digest) in d.names && d.names[Rev(tree.digest)].Dir?
  {
  }

  lemma SameRevisionStays(d: Disk, e: Disk, ps: set<Path>, dirs: set<Inode>, tree: Tree)
    requires SameRevision(d, tree) && Unchanged(d, e, ps, dirs)
    requires Rev(tree.digest) !in ps && d.names[Rev(tree.digest)].inode !in dirs
    ensures SameRevision(e, tree)
  {
    assert Lookup(e, Rev(tree.digest)) == Lookup(d, Rev(tree.digest));
  }

  lemma ReleasedSame(d: Disk, i: Inode, tree: Tree)
    ensures SameRevision(Released(d, i), tree) <==> SameRevision(d, tree)
  {
  }

  /** A package directory is claimed, or was empty and is gone. */
  ghost predicate Cleared(d: Disk, e: Disk, held: set<Inode>) {
    && e.claims == d.claims + held
    && e.trees == d.trees && e.next == d.next && e.inodes == d.inodes
    && (e.names == d.names
        || (ActiveIn(d).Directory? && Contents(d, ActiveIn(d).inode) == NoFiles && e.names == d.names - {Entry}))
  }

  lemma ClearedChoice(d: Disk, e: Disk, held: set<Inode>, staging: Path, r: Digest)
    requires WellFormed(d) && Cleared(d, e, held) && Staged(d, staging)
    ensures Staged(e, staging) && StagedTree(e, staging) == StagedTree(d, staging)
    ensures Resolves(e) == Resolves(d) && KeptAfter(e, r) == KeptAfter(d, r)
    ensures ActiveIn(d).Revision? ==> Chosen(e) == Chosen(d)
    ensures ActiveIn(e) == ActiveIn(d) || (ActiveIn(d).Directory? && ActiveIn(e) == Absent)
    ensures Lookup(e, Entry) == Lookup(d, Entry) || Resolves(d) == NoPackage
  {
  }

  /** The installation holds nothing under the revision's name. */
  lemma ClearedRevision(d: Disk, e: Disk, held: Option<Inode>, staging: Path, states: seq<Fs>, n: nat)
    requires WellFormed(d) && Staged(d, staging) && d.claims == {d.names[staging].inode}
    requires Cleared(d, e, if held.Some? then {held.value} else {})
    requires held.Some? ==> Holds(d, Entry, held.value)
    ensures var tree := StagedTree(d, staging);
      && !RevisionClaimed(e, tree)
      && (RevisionHinders(e, states, n, tree) ==> RevisionHinders(d, states, n, tree))
  {
    var dir := Rev(StagedTree(d, staging).digest);
    StagedApart(d, staging);
    if dir in d.names && d.names[dir].Dir? { OtherEntry(d, dir); }
  }

  /** From a choice that offers the same package, the way is the same. */
  lemma OnTheSameWay(states: seq<Fs>, n: nat, b: Choice, c: Choice, r: Digest)
    requires AllOnTheWay(states, n, c, r) && c.package == b.package && (b.active.Revision? ==> c == b)
    ensures AllOnTheWay(states, n, b, r)
  {
  }

  lemma SameWay(b: Choice, r: Digest, c: Choice)
    requires c.package == b.package && (b.active.Revision? ==> c == b)
    ensures OnTheWay(b, r, b) && OnTheWay(b, r, c)
  {
  }

  lemma LastOnTheWay(before: seq<Fs>, after: seq<Fs>, b: Choice, r: Digest, c: Choice)
    requires AllOnTheWay(after, |before|, b, r) && |after| > 0 && c == Chosen(after[|after| - 1].disk)
    requires before <= after && |before| > 0 && b == Chosen(before[|before| - 1].disk)
    ensures OnTheWay(b, r, c)
  {
    if |after| > |before| {
      assert OnTheWay(b, r, Chosen(after[|after| - 1].disk));
    }
  }

  /** With the same entry, the way was not gone. */
  lemma SameEntry(d: Disk, e: Disk, r: Digest, b: Choice)
    requires WellFormed(d) && WellFormed(e) && Lookup(e, Entry) == Lookup(d, Entry)
    requires b.package == Resolves(d) && OnTheWay(b, r, Chosen(e))
    ensures Resolves(e) == Resolves(d)
  {
    if Entry in d.names && d.names[Entry].Link? {
      LinkChosen(d, d.names[Entry].target);
      LinkChosen(e, d.names[Entry].target);
    }
  }

  lemma StagedElsewhere(d: Disk, staging: Path)
    requires WellFormed(d) && Staged(d, staging)
    ensures !Holds(d, Entry, d.names[staging].inode)
  {
    OtherEntry(d, staging);
  }

  lemma SweptLookups(d: Disk, e: Disk)
    requires Swept(d, e)
    ensures Lookup(e, Entry) == Lookup(d, Entry) && Lookup(e, Previous) == Lookup(d, Previous) && e.claims == d.claims
  {
  }

  lemma SweptSame(d: Disk, e: Disk, tree: Tree)
    requires WellFormed(e) && Swept(d, e) && SameRevision(d, tree) && Named(d, tree.digest)
    ensures SameRevision(e, tree)
  {
    assert Named(e, tree.digest) && Intact(e, tree.digest);
  }

  lemma CopiedChoice(d: Disk, tree: Tree)
    requires WellFormed(d) && tree.Files?
    ensures var e := Copied(d, tree);
      Chosen(e) == Chosen(d) && Staged(e, Staging(d.next)) && StagedTree(e, Staging(d.next)) == tree
      && forall r :: KeptAfter(e, r) == KeptAfter(d, r)
    ensures Lookup(Copied(d, tree), Entry) == Lookup(d, Entry)
  {
  }

  lemma NotNamed(d: Disk, r: Digest)
    requires WellFormed(d)
    ensures Rev(r) !in d.names ==> !Named(d, r)
  {
    if Named(d, r) { assert Intact(d, r); }
  }

  lemma MovedToRevision(d: Disk, staging: Path)
    requires WellFormed(d) && Staged(d, staging) && Rev(StagedTree(d, staging).digest) !in d.names
    ensures var e := Moved(d, staging, Rev(StagedTree(d, staging).digest));
      Chosen(e) == Chosen(d) && SameRevision(e, StagedTree(d, staging))
  {
    if Entry in d.names && d.names[Entry].Link? { assert Named(d, d.names[Entry].target); }
  }

  lemma ExchangedChoice(d: Disk, staging: Path)
    requires WellFormed(d) && Staged(d, staging)
    requires var dir := Rev(StagedTree(d, staging).digest); dir in d.names && d.names[dir].Dir?
    ensures var e := Exchanged(d, staging, Rev(StagedTree(d, staging).digest));
      Chosen(e) == Chosen(d) && SameRevision(e, StagedTree(d, staging))
  {
  }

  lemma StagedApart(d: Disk, staging: Path)
    requires WellFormed(d) && Staged(d, staging)
    ensures forall r :: Rev(r) in d.names ==> d.names[Rev(r)] != d.names[staging]
  {
  }

  lemma MovedChoice(d: Disk, from: Path, to: Path)
    requires WellFormed(d) && Free(d, from) && from != Entry && from != Previous && to != Entry && !to.Rev?
    requires (to == Previous && d.names[from].Link?) || Temporary(to)
    ensures Chosen(Moved(d, from, to)) == Chosen(d).(previous := if to == Previous then Some(d.names[from]) else Lookup(d, Previous))
    ensures to != Previous ==> Chosen(Moved(d, from, to)) == Chosen(d)
  {
  }

  class Operation {
    var fs: Fs
    var turns: seq<Turn>

    /** Every state there has been. */
    ghost var trace: seq<Fs>

    ghost predicate Valid()
      reads this
    {
      && Run(trace) && |trace| > 0 && trace[|trace| - 1] == fs
      && Inv(fs)
      && WellFormed(fs.disk)
      && (forall i :: i in fs.legacy ==> Holds(fs.disk, Entry, i))
    }

    constructor (fs: Fs, turns: seq<Turn>)
      requires Inv(fs)
      ensures Valid() && this.fs == fs && this.turns == turns && trace == [fs]
    {
      this.fs, this.turns, this.trace := fs, turns, [fs];
    }

    /** The run goes on; no data comes to a package directory, and data that
        leaves one is at home then. */
    twostate predicate GoesOn()
      reads this
    {
      && Valid() && old(trace) <= trace
      && fs.legacy.Keys <= old(fs).legacy.Keys
      && (fs.legacy == old(fs).legacy || fs.home.Some?)
      && (old(fs).home.Some? ==> fs.home.Some?)
    }

    // ----- System calls -----

    method Interfere() returns (turn: Turn)
      requires Valid()
      modifies this
      ensures GoesOn() && fs.disk == old(fs).disk
      // The launches of the turn take all their steps.
      ensures turn == (if old(turns) == [] then Turn([], false, NoFiles) else old(turns)[0])
      ensures turns == (if old(turns) == [] then [] else old(turns)[1..])
      ensures fs == ActedOn(old(fs), turn.launches)
      ensures Faults(old(turns)) == Faults(turns) + if turn.fails then 1 else 0
      ensures Offers(trace, |old(trace)|, Chosen(fs.disk), Chosen(fs.disk))
    {
      hide Inv, WellFormed, Step, Chosen, Act, Run;
      if turns == [] {
        turn := Turn([], false, NoFiles);
      } else {
        turn, turns := turns[0], turns[1..];
      }
      var i := 0;
      while i < |turn.launches|
        invariant i <= |turn.launches|
        invariant GoesOn() && fs.disk == old(fs).disk && turns == if old(turns) == [] then [] else old(turns)[1..]
        invariant Offers(trace, |old(trace)|, Chosen(fs.disk), Chosen(fs.disk))
        invariant fs == ActedOn(old(fs), turn.launches[..i])
      {
        ghost var before := fs;
        assert turn.launches[..i + 1][..i] == turn.launches[..i];
        ActKeeps(fs, turn.launches[i]);
        fs := Act(fs, turn.launches[i]);
        ActIsStep(before, turn.launches[i]);
        RunGoesOn(trace, fs);
        trace := trace + [fs];
        i := i + 1;
      }
      assert turn.launches[..|turn.launches|] == turn.launches;
    }

    /** A call that changes the disk to `d`, unless it fails. */
    method Apply(d: Disk) returns (ok: bool)
      requires Valid() && Careful(fs.disk, d)
      requires forall i :: i in fs.legacy ==> Holds(d, Entry, i)
      modifies this
      ensures GoesOn() && fs.disk == if ok then d else old(fs).disk
      ensures Faults(old(turns)) == Faults(turns) + if ok then 0 else 1
      ensures Offers(trace, |old(trace)|, Chosen(old(fs).disk), Chosen(fs.disk))
    {
      hide Inv, Step, Chosen, Run;
      var turn := Interfere();
      ok := !turn.fails;
      if ok {
        ghost var before := fs;
        fs := fs.(disk := d);
        assert OperationStep(before, fs);
        OperationIsStep(before, fs);
        OperationKeeps(before, fs);
        RunGoesOn(trace, fs);
        trace := trace + [fs];
      }
    }

    /** A call that changes nothing a model of the store shows. */
    method Sync() returns (ok: bool)
      requires Valid()
      modifies this
      ensures GoesOn() && fs.disk == old(fs).disk
      ensures Faults(old(turns)) == Faults(turns) + if ok then 0 else 1
      ensures Offers(trace, |old(trace)|, Chosen(fs.disk), Chosen(fs.disk))
    {
      var turn := Interfere();
      ok := !turn.fails;
    }

    method Symlink(p: Path, target: Digest) returns (ok: bool)
      requires Valid() && (p.ActiveTmp? || p.PreviousTmp?) && p.n == fs.disk.next
      modifies this
      ensures GoesOn() && fs.disk == if ok then Linked(old(fs).disk, p, target) else old(fs).disk
      ensures Faults(old(turns)) == Faults(turns) + if ok then 0 else 1
      ensures Chosen(fs.disk) == Chosen(old(fs).disk)
      ensures Offers(trace, |old(trace)|, Chosen(fs.disk), Chosen(fs.disk))
    {
      hide Inv, Step, WellFormed, Careful, Run, Chosen;
      LinkedCareful(fs.disk, p, target);
      LinkedChoice(fs.disk, p, target);
      ok := Apply(Linked(fs.disk, p, target));
    }

    method Unlink(p: Path) returns (ok: bool)
      requires Valid() && Free(fs.disk, p) && !fs.disk.names[p].Dir?
      modifies this
      ensures GoesOn() && fs.disk == if ok then Dropped(old(fs).disk, p) else old(fs).disk
      ensures Faults(old(turns)) == Faults(turns) + if ok then 0 else 1
      ensures Offers(trace, |old(trace)|, Chosen(old(fs).disk), Chosen(fs.disk))
    {
      hide Inv, Step, WellFormed, Careful, Run, Chosen;
      DroppedCareful(fs.disk, p);
      ok := Apply(Dropped(fs.disk, p));
    }

    method Rename(from: Path, to: Path) returns (ok: bool)
      requires Valid() && Free(fs.disk, from) && from != to && Fits(to, fs.disk.names[from])
      requires to !in fs.disk.names || (!fs.disk.names[to].Dir? && fs.disk.names[from].Link?)
      requires (to.Entry? || to.Previous?) && fs.disk.names[from].Link? ==> Intact(fs.disk, fs.disk.names[from].target)
      requires from == Entry && fs.disk.names[Entry].Dir? ==> fs.disk.names[Entry].inode !in fs.legacy
      modifies this
      ensures GoesOn() && fs.disk == if ok then Moved(old(fs).disk, from, to) else old(fs).disk
      ensures Faults(old(turns)) == Faults(turns) + if ok then 0 else 1
      ensures Offers(trace, |old(trace)|, Chosen(old(fs).disk), Chosen(fs.disk))
    {
      hide Inv, Step, WellFormed, Careful, Run, Chosen;
      MovedCareful(fs.disk, from, to);
      ok := Apply(Moved(fs.disk, from, to));
    }

    method Exchange(a: Path, b: Path) returns (ok: bool)
      requires Valid() && Temporary(a) && a in fs.disk.names && b in fs.disk.names
      requires Launchable(b) && fs.disk.names[b].Dir? && fs.disk.names[b].inode in fs.disk.claims
      requires Fits(a, fs.disk.names[b]) && Fits(b, fs.disk.names[a])
      requires b.Rev? ==> fs.disk.names[a].Dir? && Contents(fs.disk, fs.disk.names[a].inode).Files?
                          && Contents(fs.disk, fs.disk.names[a].inode).digest == b.revision
      requires b.Entry? && fs.disk.names[a].Link? ==> Intact(fs.disk, fs.disk.names[a].target)
      requires fs.disk.names[b].inode !in fs.legacy
      modifies this
      ensures GoesOn() && fs.disk == if ok then Exchanged(old(fs).disk, a, b) else old(fs).disk
      ensures Faults(old(turns)) == Faults(turns) + if ok then 0 else 1
      ensures Offers(trace, |old(trace)|, Chosen(old(fs).disk), Chosen(fs.disk))
    {
      hide Inv, Step, WellFormed, Careful, Run, Chosen;
      ExchangedCareful(fs.disk, a, b);
      ok := Apply(Exchanged(fs.disk, a, b));
    }

    method TryClaim(p: Path) returns (claim: Claim)
      requires Valid() && p in fs.disk.names && fs.disk.names[p].Dir?
      modifies this
      ensures GoesOn()
      ensures claim.Granted? ==>
                Holds(old(fs).disk, p, claim.inode) && claim.inode !in old(fs).disk.claims
                && fs.disk == Claimed(old(fs).disk, claim.inode)
      ensures !claim.Granted? ==> fs.disk == old(fs).disk
      ensures claim.InUse? ==>
                var i := old(fs).disk.names[p].inode;
                i in fs.disk.claims || Shared(trace[|trace| - 1], i)
      ensures Faults(old(turns)) == Faults(turns) + if claim.Failed? then 1 else 0
      ensures Chosen(fs.disk) == Chosen(old(fs).disk)
      ensures Offers(trace, |old(trace)|, Chosen(fs.disk), Chosen(fs.disk))
    {
      hide Inv, Step, WellFormed, Careful, Run;
      var turn := Interfere();
      var i := fs.disk.names[p].inode;
      if turn.fails {
        claim := Failed;
      } else if i in fs.disk.claims || Shared(fs, i) {
        claim := InUse;
      } else {
        claim := Granted(i);
        ghost var before := fs;
        fs := fs.(disk := Claimed(fs.disk, i));
        ClaimIsStep(before, i);
        OperationKeeps(before, fs);
        ClaimsAside(before.disk, fs.disk.claims);
        RunGoesOn(trace, fs);
        trace := trace + [fs];
      }
    }

    /** Removes an empty directory. */
    method RemoveDir(p: Path) returns (ok: bool)
      requires Valid() && Free(fs.disk, p) && fs.disk.names[p].Dir? && fs.disk.names[p].inode !in fs.legacy
      modifies this
      ensures GoesOn() && fs.disk == if ok then Dropped(old(fs).disk, p) else old(fs).disk
      ensures Faults(old(turns)) == Faults(turns) + if ok then 0 else 1
      ensures Offers(trace, |old(trace)|, Chosen(old(fs).disk), Chosen(fs.disk))
    {
      hide Inv, Step, WellFormed, Careful, Run, Chosen;
      DroppedCareful(fs.disk, p);
      ok := Apply(Dropped(fs.disk, p));
    }

    /** Removes the files of a directory, then the directory: what is left
        of the files until then is anything. */
    method RemoveTree(p: Path) returns (ok: bool)
      requires Valid() && Free(fs.disk, p) && fs.disk.names[p].Dir? && fs.disk.names[p].inode !in fs.legacy
      modifies this
      ensures GoesOn() && Faults(turns) <= Faults(old(turns)) && (Faults(old(turns)) == 0 ==> ok)
      ensures var i := old(fs).disk.names[p].inode;
        && Unchanged(old(fs).disk, fs.disk, {p}, {i})
        && (if ok then p !in fs.disk.names else Holds(fs.disk, p, i))
      ensures fs.disk.names == if ok then old(fs).disk.names - {p} else old(fs).disk.names
      ensures p != Entry ==>
                Chosen(fs.disk) == Chosen(old(fs).disk)
                && Offers(trace, |old(trace)|, Chosen(fs.disk), Chosen(fs.disk))
    {
      hide Inv, Step, WellFormed, Careful, Run, Chosen, Offers;
      var i := fs.disk.names[p].inode;
      var remains := if turns == [] then NoFiles else turns[0].remains;
      RewrittenCareful(fs.disk, p, remains);
      Kinds(fs.disk, p);
      if p != Entry { RewrittenChoice(fs.disk, p, remains); }
      ok := Apply(Rewritten(fs.disk, i, remains));
      if ok {
        ghost var middle, choice := trace, Chosen(fs.disk);
        if p != Entry { DroppedChoice(fs.disk, p); }
        ok := RemoveDir(p);
        if p != Entry { StillOffers(middle, trace, |old(trace)|, choice, choice); }
      }
    }

    /** A claimed directory loses its name, then its files. */
    method RemoveClaimed(p: Path)
      requires Valid() && Free(fs.disk, p) && fs.disk.names[p].Dir?
      requires p != Entry && !p.Trash? && fs.disk.names[p].inode !in fs.legacy
      modifies this
      ensures GoesOn() && Faults(turns) <= Faults(old(turns))
      ensures var i := old(fs).disk.names[p].inode;
        && Unchanged(old(fs).disk, fs.disk, {p}, {i})
        && (p in fs.disk.names ==> Holds(fs.disk, p, i) && Contents(fs.disk, i) == Contents(old(fs).disk, i))
        && (Faults(old(turns)) == 0 ==> p !in fs.disk.names)
      ensures Faults(old(turns)) == 0 ==> Fewer(old(fs).disk, fs.disk)
      ensures Chosen(fs.disk) == Chosen(old(fs).disk)
      ensures Offers(trace, |old(trace)|, Chosen(fs.disk), Chosen(fs.disk))
    {
      hide Inv, Step, WellFormed, Careful, Run, Chosen, Offers;
      var trash := Trash(fs.disk.next);
      Unused(fs.disk, trash);
      Kinds(fs.disk, p);
      MovedChoice(fs.disk, p, trash);
      var ok := Rename(p, trash);
      if ok {
        ghost var middle, choice := trace, Chosen(fs.disk);
        ok := RemoveTree(trash);
        assert Lookup(fs.disk, p) == None;
        StillOffers(middle, trace, |old(trace)|, choice, choice);
      }
    }

    /** Points the rollback link at `target`, in one rename. */
    method ReplacePrevious(target: Digest) returns (ok: bool)
      requires Valid() && Intact(fs.disk, target)
      modifies this
      ensures GoesOn() && Faults(turns) <= Faults(old(turns))
      ensures ok ==> Lookup(fs.disk, Previous) == Some(Link(target))
      ensures Lookup(fs.disk, Previous) in {Lookup(old(fs).disk, Previous), Some(Link(target))}
      ensures !ok ==> Faults(turns) < Faults(old(turns))
      ensures Unchanged(old(fs).disk, fs.disk, {Previous}, {})
      ensures Chosen(fs.disk) == Chosen(old(fs).disk).(previous := Lookup(fs.disk, Previous))
      ensures Offers(trace, |old(trace)|, Chosen(old(fs).disk), Chosen(old(fs).disk).(previous := Some(Link(target))))
    {
      hide Inv, Step, WellFormed, Careful, Run, Chosen, Offers;
      ghost var n, start, after := |trace|, Chosen(fs.disk), Chosen(fs.disk).(previous := Some(Link(target)));
      ChosenPrevious(fs.disk);
      var temporary := PreviousTmp(fs.disk.next);
      Unused(fs.disk, temporary);
      ok := Symlink(temporary, target);
      OffersEither(trace, n, start, after);
      if ok {
        ghost var middle := trace;
        if Previous in fs.disk.names { Kinds(fs.disk, Previous); }
        MovedChoice(fs.disk, temporary, Previous);
        ok := Rename(temporary, Previous);
        OffersEither(trace, |middle|, start, after);
        StillOffers(middle, trace, n, start, after);
        middle := trace;
        if ok {
          ok := Sync();
          OffersEither(trace, |middle|, after, start);
        } else {
          DroppedChoice(fs.disk, temporary);
          var _ := Unlink(temporary);
          OffersEither(trace, |middle|, start, after);
        }
        StillOffers(middle, trace, n, start, after);
      }
    }

    // ----- activate -----

    /** Makes the rollback link what `KeptAfter` says, ahead of the switch. */
    method KeepCurrent(r: Digest) returns (kept: bool)
      requires Valid() && ActiveIn(fs.disk) != NotAPackage
      modifies this
      ensures GoesOn() && Faults(turns) <= Faults(old(turns))
      ensures if kept then Lookup(fs.disk, Previous) == KeptAfter(old(fs).disk, r) else Faults(turns) < Faults(old(turns))
      ensures Lookup(fs.disk, Previous) in {Lookup(old(fs).disk, Previous), KeptAfter(old(fs).disk, r)}
      ensures Unchanged(old(fs).disk, fs.disk, {Previous}, {})
      ensures Chosen(fs.disk) == Chosen(old(fs).disk).(previous := Lookup(fs.disk, Previous))
      ensures Offers(trace, |old(trace)|, Chosen(old(fs).disk), Chosen(old(fs).disk).(previous := KeptAfter(old(fs).disk, r)))
    {
      hide Inv, Step, WellFormed, Careful, Run, Chosen, Offers;
      ghost var n, start, after := |trace|, Chosen(fs.disk), Chosen(fs.disk).(previous := KeptAfter(fs.disk, r));
      ChosenPrevious(fs.disk);
      OffersNothing(trace, start, after);
      var current := ActiveIn(fs.disk);
      if current.Revision? {
        if current.name != r {
          NamedIntact(fs.disk, current.name);
          kept := ReplacePrevious(current.name);
        } else {
          kept := true;
        }
      } else {
        if Previous in fs.disk.names {
          Kinds(fs.disk, Previous);
          DroppedChoice(fs.disk, Previous);
          kept := Unlink(Previous);
          OffersEither(trace, n, start, after);
          if !kept { return; }
        }
        ghost var middle := trace;
        kept := Sync();
        OffersEither(trace, |middle|, after, start);
        StillOffers(middle, trace, n, start, after);
      }
    }

    /** Puts the rollback link back to `before`. */
    method RestoreKept(before: Option<Node>)
      requires Valid() && before != Some(Other)
      requires before.Some? ==> before.value.Link? && Intact(fs.disk, before.value.target)
      modifies this
      ensures GoesOn() && Faults(turns) <= Faults(old(turns))
      ensures Faults(old(turns)) == 0 ==> Lookup(fs.disk, Previous) == before
      ensures Lookup(fs.disk, Previous) in {Lookup(old(fs).disk, Previous), before}
      ensures Unchanged(old(fs).disk, fs.disk, {Previous}, {})
      ensures Chosen(fs.disk) == Chosen(old(fs).disk).(previous := Lookup(fs.disk, Previous))
      ensures Offers(trace, |old(trace)|, Chosen(old(fs).disk), Chosen(old(fs).disk).(previous := before))
    {
      hide Inv, Step, WellFormed, Careful, Run, Chosen, Offers;
      ghost var start, after := Chosen(fs.disk), Chosen(fs.disk).(previous := before);
      ChosenPrevious(fs.disk);
      OffersNothing(trace, start, after);
      if before.Some? {
        var _ := ReplacePrevious(before.value.target);
      } else if Previous in fs.disk.names {
        Kinds(fs.disk, Previous);
        DroppedChoice(fs.disk, Previous);
        var _ := Unlink(Previous);
        OffersEither(trace, |old(trace)|, start, after);
      }
    }

    /** Puts the new link in place: a package directory is exchanged with it. */
    method Switch(link: Path, r: Digest) returns (ok: bool)
      requires Valid() && Replaceable(fs)
      requires link.ActiveTmp? && Lookup(fs.disk, link) == Some(Link(r)) && Intact(fs.disk, r)
      modifies this
      ensures GoesOn() && Faults(old(turns)) == Faults(turns) + if ok then 0 else 1
      ensures !ok ==> fs.disk == old(fs).disk
      ensures ok ==>
                && Lookup(fs.disk, Entry) == Some(Link(r))
                && Chosen(fs.disk) == Choice(Revision(r), RevisionPackage(r), Lookup(old(fs).disk, Previous))
                && Lookup(fs.disk, link) == (match ActiveIn(old(fs).disk) case Directory(i) => Some(Dir(i)) case _ => None)
      ensures Unchanged(old(fs).disk, fs.disk, {Entry, link}, {})
      ensures Offers(trace, |old(trace)|, Chosen(old(fs).disk), Chosen(fs.disk))
    {
      hide Inv, Step, WellFormed, Careful, Run, Chosen, Offers;
      SwitchedChoice(fs.disk, link, r);
      if ActiveIn(fs.disk).Directory? {
        ok := Exchange(link, Entry);
      } else {
        ok := Rename(link, Entry);
      }
    }

    /** Keeps the current revision for rollback, then switches. */
    method KeepAndSwitch(link: Path, r: Digest) returns (ok: bool)
      requires Valid() && Intact(fs.disk, r) && Replaceable(fs) && ActiveIn(fs.disk) != NotAPackage
      requires link.ActiveTmp? && Lookup(fs.disk, link) == Some(Link(r))
      modifies this
      ensures GoesOn() && Faults(turns) + (if ok then 0 else 1) <= Faults(old(turns))
      ensures AllOnTheWay(trace, |old(trace)|, Chosen(old(fs).disk), r)
      ensures if ok then
                && Chosen(fs.disk) == Choice(Revision(r), RevisionPackage(r), KeptAfter(old(fs).disk, r))
                && Lookup(fs.disk, Entry) == Some(Link(r))
                && Lookup(fs.disk, link) == (match ActiveIn(old(fs).disk) case Directory(i) => Some(Dir(i)) case _ => None)
              else
                && Chosen(fs.disk) == Chosen(old(fs).disk).(previous := Lookup(fs.disk, Previous))
                && Lookup(fs.disk, Previous) in {Lookup(old(fs).disk, Previous), KeptAfter(old(fs).disk, r)}
      ensures Unchanged(old(fs).disk, fs.disk, {Previous} + if ok then {Entry, link} else {}, {})
    {
      hide Inv, Step, WellFormed, Careful, Run, Chosen, Offers, AllOnTheWay, Unchanged, OnTheWay, Intact;
      ghost var n, start, disk := |trace|, Chosen(fs.disk), fs.disk;
      ChosenParts(fs.disk);
      OnTheWayNowhere(trace, start, r);
      ok := KeepCurrent(r);
      SameOffer(start, r, start);
      SameOffer(start, r, start.(previous := KeptAfter(disk, r)));
      StayOnTheWay(old(trace), trace, n, start, r, start, start.(previous := KeptAfter(disk, r)));
      UnchangedAt(disk, fs.disk, {Previous}, {}, Entry);
      UnchangedAt(disk, fs.disk, {Previous}, {}, link);
      IntactStays(disk, fs.disk, {Previous}, {}, r);
      ghost var middle, now, kept := trace, Chosen(fs.disk), fs.disk;
      ChosenParts(kept);
      SameOffer(start, r, now);
      assert {Previous} + {} == {Previous};
      if ok {
        ok := Switch(link, r);
        if ok {
          OnTheWayTo(start, r, Chosen(fs.disk));
          UnchangedAlong(disk, kept, fs.disk, {Previous}, {Entry, link}, {Previous} + {Entry, link}, {}, {});
        }
        StayOnTheWay(middle, trace, n, start, r, now, Chosen(fs.disk));
      }
    }

    /** Makes `r` the active revision. */
    method Activate(r: Digest) returns (ok: bool)
      requires Valid() && Intact(fs.disk, r) && Replaceable(fs)
      modifies this
      ensures GoesOn() && Faults(turns) <= Faults(old(turns))
      ensures !ok && ActiveIn(old(fs).disk) != NotAPackage ==> Faults(turns) < Faults(old(turns))
      ensures AllOnTheWay(trace, |old(trace)|, Chosen(old(fs).disk), r)
      ensures ok ==> Lookup(fs.disk, Entry) == Some(Link(r)) && Lookup(fs.disk, Previous) == KeptAfter(old(fs).disk, r)
      ensures !ok ==>
                Lookup(fs.disk, Previous) in {Lookup(old(fs).disk, Previous), KeptAfter(old(fs).disk, r)}
      ensures !ok && Faults(old(turns)) <= 1 && ActiveIn(old(fs).disk).Revision? ==>
                Lookup(fs.disk, Previous) == Lookup(old(fs).disk, Previous)
      // With at most the one fault that stopped it, no temporary link is left.
      ensures ActiveIn(old(fs).disk) != NotAPackage && Faults(old(turns)) <= (if ok then 0 else 1) ==>
                Lookup(fs.disk, ActiveTmp(old(fs).disk.next)) == None
      ensures Unchanged(old(fs).disk, fs.disk,
                        {Previous, ActiveTmp(old(fs).disk.next)} + if ok then {Entry} else {},
                        if ok then ReplacedDir(old(fs).disk) else {})
    {
      hide Inv, Step, WellFormed, Careful, Run, Chosen, Offers, AllOnTheWay, Unchanged, OnTheWay, Intact;
      ghost var n, start, disk := |trace|, Chosen(fs.disk), fs.disk;
      var current := ActiveIn(fs.disk);
      ChosenParts(fs.disk);
      OnTheWayNowhere(trace, start, r);
      SameOffer(start, r, start);
      var link := ActiveTmp(fs.disk.next);
      ghost var aside := {Previous, link};
      assert aside + {} == aside;
      NothingUnchanged(disk, aside);
      if current == NotAPackage { return false; }
      Unused(fs.disk, link);
      LinkedUnchanged(fs.disk, link, r);
      LinkedIntact(disk, link, r);
      ok := Symlink(link, r);
      StayOnTheWay(old(trace), trace, n, start, r, start, start);
      if !ok { return; }
      var keptBefore := Lookup(fs.disk, Previous);
      if keptBefore.Some? { Kinds(fs.disk, Previous); NamedIntact(fs.disk, keptBefore.value.target); }
      ghost var middle, made := trace, fs.disk;
      UnchangedAt(disk, made, {link}, {}, Previous);
      ChosenParts(made);
      ok := KeepAndSwitch(link, r);
      ChosenParts(fs.disk);
      OnTheWayAlong(middle, trace, n, start, r);
      middle := trace;
      ghost var now, kept := Chosen(fs.disk), fs.disk;
      if ok {
        UnchangedAlong(disk, made, kept, {link}, {Previous} + {Entry, link}, aside + {Entry}, {}, {});
        OnTheWayTo(start, r, now);
        Tidy(link, current);
        StayOnTheWay(middle, trace, n, start, r, now, now);
        TidyUnchanged(disk, kept, fs.disk, link);
      } else {
        assert {Previous} + {} == {Previous};
        UnchangedAlong(disk, made, kept, {link}, {Previous}, aside, {}, {});
        UnchangedAt(made, kept, {Previous}, {}, link);
        if keptBefore.Some? { IntactStays(made, fs.disk, {Previous}, {}, keptBefore.value.target); }
        GiveUp(link, current, r, keptBefore);
        UnchangedAlong(disk, kept, fs.disk, aside, aside, aside, {}, {});
        SameOffer(start, r, now);
        SameOffer(start, r, now.(previous := keptBefore));
        StayOnTheWay(middle, trace, n, start, r, now, now.(previous := keptBefore));
      }
    }

    /** Nothing was switched: the temporary link goes, and the rollback link
        is what it was. */
    method GiveUp(link: Path, current: Active, r: Digest, keptBefore: Option<Node>)
      requires Valid() && link.ActiveTmp? && Lookup(fs.disk, link) == Some(Link(r))
      requires keptBefore.Some? ==> keptBefore.value.Link? && Intact(fs.disk, keptBefore.value.target)
      modifies this
      ensures GoesOn() && Faults(turns) <= Faults(old(turns))
      ensures Unchanged(old(fs).disk, fs.disk, {Previous, link}, {})
      ensures Faults(old(turns)) == 0 ==> Lookup(fs.disk, link) == None
      ensures if current.Revision? && current.name != r
              then Lookup(fs.disk, Previous) in {Lookup(old(fs).disk, Previous), keptBefore}
                   && (Faults(old(turns)) == 0 ==> Lookup(fs.disk, Previous) == keptBefore)
              else Lookup(fs.disk, Previous) == Lookup(old(fs).disk, Previous)
      ensures Offers(trace, |old(trace)|, Chosen(old(fs).disk), Chosen(old(fs).disk).(previous := keptBefore))
    {
      hide Inv, Step, WellFormed, Careful, Run, Chosen, Offers;
      ghost var n, start, before := |trace|, fs.disk, Chosen(fs.disk).(previous := keptBefore);
      DroppedChoice(fs.disk, link);
      var _ := Unlink(link);
      OffersEither(trace, n, Chosen(start), before);
      if current.Revision? && current.name != r {
        ghost var middle := trace;
        if keptBefore.Some? { IntactStays(start, fs.disk, {link}, {}, keptBefore.value.target); }
        RestoreKept(keptBefore);
        StillOffers(middle, trace, n, Chosen(start), before);
      }
    }

    /** After an exchange the temporary name holds the old package directory. */
    method Tidy(link: Path, current: Active)
      requires Valid() && link.ActiveTmp?
      requires current.Directory? ==> Holds(fs.disk, link, current.inode) && current.inode !in fs.legacy
      modifies this
      ensures GoesOn() && Faults(turns) <= Faults(old(turns))
      ensures Unchanged(old(fs).disk, fs.disk, {link}, if current.Directory? then {current.inode} else {})
      ensures Faults(old(turns)) == 0 && (current.Directory? || Lookup(old(fs).disk, link) == None) ==>
                Lookup(fs.disk, link) == None
      ensures Chosen(fs.disk) == Chosen(old(fs).disk)
      ensures Offers(trace, |old(trace)|, Chosen(fs.disk), Chosen(fs.disk))
    {
      hide Inv, Step, WellFormed, Careful, Run, Chosen, Offers;
      var _ := Sync();
      if current.Directory? {
        ghost var middle := trace;
        RemoveClaimed(link);
        StillOffers(middle, trace, |old(trace)|, Chosen(fs.disk), Chosen(fs.disk));
      }
    }

    // ----- collect -----

    method Release(i: Inode)
      requires Valid()
      modifies this
      ensures GoesOn() && fs.disk == Released(old(fs).disk, i) && Faults(turns) <= Faults(old(turns))
      ensures Chosen(fs.disk) == Chosen(old(fs).disk)
      ensures Offers(trace, |old(trace)|, Chosen(fs.disk), Chosen(fs.disk))
    {
      hide Inv, Step, WellFormed, Careful, Run;
      var _ := Interfere();
      ReleasedCareful(fs.disk, i);
      ghost var before := fs;
      fs := fs.(disk := Released(fs.disk, i));
      ReleasedIsStep(before, i);
      OperationKeeps(before, fs);
      RunGoesOn(trace, fs);
      trace := trace + [fs];
    }

    /** Takes one revision nobody needs out of the store, unless a session
        runs from it. */
    method CollectRevision(r: Digest) returns (spared: bool)
      requires Valid() && fs.disk.claims == {} && Rev(r) in fs.disk.names && !Named(fs.disk, r)
      modifies this
      ensures GoesOn() && Faults(turns) <= Faults(old(turns))
      ensures Swept(old(fs).disk, fs.disk)
      ensures forall p :: p != Rev(r) && !Scratch(p) ==> Lookup(fs.disk, p) == Lookup(old(fs).disk, p)
      ensures Chosen(fs.disk) == Chosen(old(fs).disk)
      ensures Offers(trace, |old(trace)|, Chosen(fs.disk), Chosen(fs.disk))
      ensures Faults(old(turns)) == 0 && !spared ==> Rev(r) !in fs.disk.names
      ensures Faults(old(turns)) == 0 ==> Fewer(old(fs).disk, fs.disk)
      ensures spared ==> fs.disk == old(fs).disk && UsedSince(trace, |old(trace)| - 1, r)
    {
      hide Inv, Step, WellFormed, Careful, Run, Chosen, Offers;
      ghost var start, choice := fs.disk, Chosen(fs.disk);
      Kinds(fs.disk, Rev(r));
      var claim := TryClaim(Rev(r));
      spared := claim.InUse?;
      if spared { assert trace[|trace| - 1] == fs && Holds(fs.disk, Rev(r), fs.disk.names[Rev(r)].inode); }
      if claim.Granted? {
        ghost var middle, claimed := trace, fs.disk;
        OtherEntry(fs.disk, Rev(r));
        RemoveClaimed(Rev(r));
        SweptOne(claimed, claimed, fs.disk, Rev(r), claim.inode);
        StillOffers(middle, trace, |old(trace)|, choice, choice);
        middle := trace;
        Release(claim.inode);
        StillOffers(middle, trace, |old(trace)|, choice, choice);
      }
    }

    /** One entry among the app's revisions. The source also drops a dangling
        rollback link; `WellFormed` rules that out. */
    method CollectEntry(p: Path, keep: seq<Digest>) returns (spared: bool)
      requires Valid() && fs.disk.claims == {}
      requires forall r :: r in keep <==> Named(fs.disk, r)
      requires p == Previous || p.PreviousTmp? || p.Rev?
      requires !p.PreviousTmp? ==> Lookup(fs.disk, p).Some?
      modifies this
      ensures GoesOn() && Faults(turns) <= Faults(old(turns))
      ensures Swept(old(fs).disk, fs.disk)
      ensures forall q :: q != p && !Scratch(q) ==> Lookup(fs.disk, q) == Lookup(old(fs).disk, q)
      ensures Chosen(fs.disk) == Chosen(old(fs).disk)
      ensures Offers(trace, |old(trace)|, Chosen(fs.disk), Chosen(fs.disk))
      ensures Faults(old(turns)) == 0 ==> EntryDone(old(fs).disk, fs.disk, p, keep, spared)
      ensures spared ==> p.Rev? && fs.disk == old(fs).disk && UsedSince(trace, |old(trace)| - 1, p.revision)
    {
      hide Inv, Step, WellFormed, Careful, Run, Chosen, Offers, UsedSince;
      spared := false;
      OffersNothing(trace, Chosen(fs.disk), Chosen(fs.disk));
      if p !in fs.disk.names { return; }
      Kinds(fs.disk, p);
      if p == Previous {
        NamedIntact(fs.disk, fs.disk.names[p].target);
      } else if p.PreviousTmp? {
        DroppedChoice(fs.disk, p);
        var _ := Unlink(p);
      } else if p.revision !in keep {
        spared := CollectRevision(p.revision);
      }
    }

    /** Visits every entry among the app's revisions once. */
    method CollectRevisions(keep: seq<Digest>) returns (spared: set<Digest>)
      requires Valid() && fs.disk.claims == {}
      requires forall r :: r in keep <==> Named(fs.disk, r)
      modifies this
      ensures GoesOn() && Faults(turns) <= Faults(old(turns))
      ensures Swept(old(fs).disk, fs.disk)
      ensures Chosen(fs.disk) == Chosen(old(fs).disk)
      ensures Offers(trace, |old(trace)|, Chosen(fs.disk), Chosen(fs.disk))
      ensures Faults(old(turns)) == 0 ==> forall r :: Lookup(fs.disk, Rev(r)).Some? ==> r in keep || r in spared
      ensures Faults(old(turns)) == 0 ==> forall p: Path :: Lookup(fs.disk, p).Some? ==> !p.PreviousTmp?
      ensures forall r :: r in spared ==> Lookup(fs.disk, Rev(r)).Some?
      ensures AllUsed(trace, |old(trace)| - 1, spared)
    {
      hide Inv, Step, WellFormed, Careful, Run, Chosen, Offers, UsedSince, AllUsed, Swept, Visiting, Visited, SparedStay, EntryDone, Lookup, Named, Faults, Holds;
      ghost var n, start, choice := |trace|, fs.disk, Chosen(fs.disk);
      OffersNothing(trace, choice, choice);
      SweptNothing(start);
      spared := {};
      var todo := set p | p in fs.disk.names && (p == Previous || p.PreviousTmp? || p.Rev?);
      NoneUsed(trace, n - 1);
      VisitAll(start, todo, keep);
      while todo != {}
        invariant GoesOn() && Faults(turns) <= Faults(old(turns))
        invariant Swept(start, fs.disk)
        invariant Chosen(fs.disk) == choice && Offers(trace, n, choice, choice)
        invariant Visiting(fs.disk, todo) && SparedStay(fs.disk, todo, spared)
        invariant Faults(old(turns)) == 0 ==> Visited(fs.disk, todo, keep, spared)
        invariant AllUsed(trace, n - 1, spared)
        decreases |todo|
      {
        var p :| p in todo;
        ghost var middle, before := trace, fs.disk;
        SweptLinks(start, before);
        VisitedKind(before, todo, p);
        var inUse := CollectEntry(p, keep);
        VisitOne(before, fs.disk, todo, keep, spared, p, inUse);
        todo := todo - {p};
        UsedStill(middle, trace, n - 1, spared, |middle| - 1, if inUse && p.Rev? then {p.revision} else {});
        SweptAlong(start, before, fs.disk);
        StillOffers(middle, trace, n, choice, choice);
        spared := spared + if inUse && p.Rev? then {p.revision} else {};
      }
      VisitedAll(fs.disk, keep, spared);
    }

    /** One entry of the store with a temporary name: what an interrupted
        operation left is removed, claimed first. */
    method CollectTemporary(p: Path, aged: bool)
      requires Valid() && fs.disk.claims == {}
      requires p.ActiveTmp? || p.Staging? || p.Trash?
      modifies this
      ensures GoesOn() && Faults(turns) <= Faults(old(turns))
      ensures Swept(old(fs).disk, fs.disk)
      ensures Chosen(fs.disk) == Chosen(old(fs).disk)
      ensures Offers(trace, |old(trace)|, Chosen(fs.disk), Chosen(fs.disk))
      ensures Faults(old(turns)) == 0 ==>
                Fewer(old(fs).disk, fs.disk)
                && (p in fs.disk.names ==> Excused(fs.disk, p, aged, trace, |old(trace)| - 1))
      ensures forall r :: Lookup(fs.disk, Rev(r)) == Lookup(old(fs).disk, Rev(r))
    {
      hide Inv, Step, WellFormed, Careful, Run, Chosen, Offers;
      ghost var n, choice, start := |trace|, Chosen(fs.disk), fs.disk;
      OffersNothing(trace, choice, choice);
      if p !in fs.disk.names { return; }
      Kinds(fs.disk, p);
      if fs.disk.names[p].Link? {
        DroppedChoice(fs.disk, p);
        var _ := Unlink(p);
      } else if p.ActiveTmp? || aged {
        var claim := TryClaim(p);
        if claim.InUse? { assert trace[|trace| - 1] == fs; }
        if claim.Granted? {
          ghost var middle := trace;
          ClearTemporary(p, claim.inode);
          StillOffers(middle, trace, n, choice, choice);
        }
      }
    }

    /** Removes a claimed directory with a temporary name, and lets it go. */
    method ClearTemporary(p: Path, i: Inode)
      requires Valid() && fs.disk.claims == {i} && Holds(fs.disk, p, i)
      requires p.ActiveTmp? || p.Staging? || p.Trash?
      modifies this
      ensures GoesOn() && Faults(turns) <= Faults(old(turns)) && fs.disk.claims == {}
      ensures Swept(old(fs).disk.(claims := {}), fs.disk)
      ensures Chosen(fs.disk) == Chosen(old(fs).disk)
      ensures Offers(trace, |old(trace)|, Chosen(fs.disk), Chosen(fs.disk))
      ensures Faults(old(turns)) == 0 ==> Fewer(old(fs).disk, fs.disk) && p !in fs.disk.names
      ensures forall r :: Lookup(fs.disk, Rev(r)) == Lookup(old(fs).disk, Rev(r))
    {
      hide Inv, Step, WellFormed, Careful, Run, Chosen, Offers;
      ghost var n, choice, claimed := |trace|, Chosen(fs.disk), fs.disk;
      OtherEntry(fs.disk, p);
      if p.ActiveTmp? {
        RemoveClaimed(p);
      } else {
        var _ := RemoveTree(p);
      }
      SweptNothing(claimed);
      SweptOne(claimed, claimed, fs.disk, p, i);
      ghost var middle := trace;
      Release(i);
      StillOffers(middle, trace, n, choice, choice);
    }

    /** Visits every temporary name in the store once. */
    method CollectTemporaries(aged: set<Path>)
      requires Valid() && fs.disk.claims == {}
      modifies this
      ensures GoesOn() && Faults(turns) <= Faults(old(turns))
      ensures Swept(old(fs).disk, fs.disk)
      ensures Chosen(fs.disk) == Chosen(old(fs).disk)
      ensures Offers(trace, |old(trace)|, Chosen(fs.disk), Chosen(fs.disk))
      ensures forall r :: Lookup(fs.disk, Rev(r)) == Lookup(old(fs).disk, Rev(r))
      ensures Faults(old(turns)) == 0 && (forall p: Path :: Lookup(old(fs).disk, p).Some? ==> !p.PreviousTmp?) ==>
                Leftovers(fs.disk, {}, aged, trace, |old(trace)| - 1)
    {
      hide Inv, Step, WellFormed, Careful, Run, Chosen, Offers, Swept, Lookup, Named, Leftovers, Fewer, Excused;
      ghost var n, choice, start := |trace|, Chosen(fs.disk), fs.disk;
      OffersNothing(trace, choice, choice);
      SweptNothing(start);
      var todo := set p | p in fs.disk.names && (p.ActiveTmp? || p.Staging? || p.Trash?);
      ghost var sound := Faults(turns) == 0 && forall p: Path :: Lookup(fs.disk, p).Some? ==> !p.PreviousTmp?;
      if sound { LeftoversAtFirst(start, todo, aged, trace, n - 1); }
      while todo != {}
        invariant GoesOn() && Faults(turns) <= Faults(old(turns))
        invariant sound ==> Leftovers(fs.disk, todo, aged, trace, n - 1)
        invariant Swept(start, fs.disk)
        invariant Chosen(fs.disk) == choice && Offers(trace, n, choice, choice)
        invariant forall p :: p in todo ==> p.ActiveTmp? || p.Staging? || p.Trash?
        invariant forall r :: Lookup(fs.disk, Rev(r)) == Lookup(start, Rev(r))
        decreases |todo|
      {
        var p :| p in todo;
        ghost var middle, before := trace, fs.disk;
        SweptLinks(start, before);
        CollectTemporary(p, p in aged);
        if sound { LeftoverOne(before, fs.disk, todo, p, aged, middle, trace, n - 1, |middle| - 1); }
        todo := todo - {p};
        SweptAlong(start, before, fs.disk);
        StillOffers(middle, trace, n, choice, choice);
      }
    }

    /** Clears the app's revisions, then the temporary names; `aged` are those
        of directories nobody touched for long. */
    method Collect(aged: set<Path>) returns (spared: set<Digest>)
      requires Valid() && fs.disk.claims == {}
      modifies this
      ensures GoesOn() && Faults(turns) <= Faults(old(turns))
      ensures Swept(old(fs).disk, fs.disk)
      ensures Chosen(fs.disk) == Chosen(old(fs).disk)
      ensures Offers(trace, |old(trace)|, Chosen(fs.disk), Chosen(fs.disk))
      ensures Faults(old(turns)) == 0 ==> Collected(fs.disk, spared, aged, trace, |old(trace)| - 1)
      ensures AllUsed(trace, |old(trace)| - 1, spared)
    {
      hide Inv, Step, WellFormed, Careful, Run, Chosen, Offers, UsedSince, AllUsed, Swept, Lookup, Named, Leftovers;
      ghost var n, choice, start := |trace|, Chosen(fs.disk), fs.disk;
      var keep := Keep(fs.disk);
      KeepNamed(fs.disk, keep);
      spared := CollectRevisions(keep);
      SweptLinks(start, fs.disk);
      ghost var middle, left := trace, fs.disk;
      CollectTemporaries(aged);
      StillOffers(middle, trace, n, choice, choice);
      SweptAlong(start, left, fs.disk);
      SweptLinks(start, fs.disk);
      NamedThere(fs.disk);
      UsedStill(middle, trace, n - 1, spared, n - 1, {});
      assert spared + {} == spared;
      if Faults(old(turns)) == 0 { LeftoversEarlier(fs.disk, aged, trace, n - 1, |middle| - 1); }
    }

    // ----- rollback -----

    /** Exchanges the active and the kept revision. `owned` is whether the
        owner record admits the kept one. */
    method Rollback(owned: bool, aged: set<Path>) returns (ok: bool, spared: set<Digest>)
      requires Valid() && fs.disk.claims == {}
      modifies this
      ensures GoesOn() && fs.disk.claims == {} && Faults(turns) <= Faults(old(turns))
      ensures ok ==> owned && RolledBack(Chosen(old(fs).disk), Chosen(fs.disk))
      ensures ok && Faults(old(turns)) == 0 ==> Collected(fs.disk, spared, aged, trace, |old(trace)| - 1)
      ensures !ok ==> Chosen(fs.disk).active == Chosen(old(fs).disk).active && Chosen(fs.disk).package == Chosen(old(fs).disk).package
      ensures owned && Faults(old(turns)) == 0 && CanRollBack(Chosen(old(fs).disk)) ==> ok
      ensures CanRollBack(Chosen(old(fs).disk)) ==>
                AllOnTheWay(trace, |old(trace)|, Chosen(old(fs).disk), Chosen(old(fs).disk).previous.value.target)
    {
      hide Inv, Step, WellFormed, Careful, Run, Chosen, Offers, AllOnTheWay, Swept, AllUsed, Unchanged, Collected;
      spared := {};
      ghost var start, disk := Chosen(fs.disk), fs.disk;
      ChosenParts(fs.disk);
      var current, previous := ActiveIn(fs.disk), PreviousRevision(fs.disk);
      if !current.Revision? || previous.None? || previous.value == current.name || !owned {
        CannotRollBack(fs.disk);
        if CanRollBack(start) { OnTheWayNowhere(trace, start, start.previous.value.target); }
        return false, {};
      }
      NamedIntact(fs.disk, previous.value);
      ok := Activate(previous.value);
      UnchangedAt(disk, fs.disk, {Previous, ActiveTmp(disk.next)} + if ok then {Entry} else {}, {}, Staging(0));
      if !ok {
        UnchangedAt(disk, fs.disk, {Previous, ActiveTmp(disk.next)} + {}, {}, Entry);
        SameChoice(disk, fs.disk);
      } else {
        ghost var middle, now := trace, Chosen(fs.disk);
        LinkChosen(fs.disk, previous.value);
        LinkChosen(disk, current.name);
        OnTheWayTo(start, previous.value, now);
        ghost var switched := fs.disk;
        spared := Collect(aged);
        if Faults(old(turns)) == 0 { CollectedEarlier(fs.disk, spared, aged, trace, |old(trace)| - 1, |middle| - 1); }
        SweptLinks(switched, fs.disk);
        StayOnTheWay(middle, trace, |old(trace)|, start, previous.value, now, now);
      }
    }

    /** Two rollbacks in a row, each followed by its collection. */
    method RollbackTwice(owned: bool, stillOwned: bool, aged: set<Path>, later: set<Path>) returns (both: bool)
      requires Valid() && fs.disk.claims == {}
      modifies this
      ensures GoesOn() && fs.disk.claims == {}
      ensures both ==> Chosen(fs.disk) == Chosen(old(fs).disk)
      ensures owned && stillOwned && Faults(old(turns)) == 0 && CanRollBack(Chosen(old(fs).disk)) ==> both
    {
      hide Inv, Step, WellFormed, Careful, Run, Chosen, AllOnTheWay;
      var spared;
      both, spared := Rollback(owned, aged);
      if both { both, spared := Rollback(stillOwned, later); }
    }

    // ----- place -----

    /** Puts the staged package under its revision name, unless the revision
        is there already. */
    method PutRevision(staging: Path) returns (put: bool, created: bool)
      requires Valid() && Staged(fs.disk, staging)
      modifies this
      ensures GoesOn() && Faults(turns) <= Faults(old(turns))
      ensures Chosen(fs.disk) == Chosen(old(fs).disk)
      ensures Offers(trace, |old(trace)|, Chosen(fs.disk), Chosen(fs.disk))
      ensures fs.disk.claims == old(fs).disk.claims
      ensures forall q :: q != staging && q != Rev(StagedTree(old(fs).disk, staging).digest) && !Scratch(q) ==>
                Lookup(fs.disk, q) == Lookup(old(fs).disk, q)
      ensures put ==> SameRevision(fs.disk, StagedTree(old(fs).disk, staging))
      ensures created ==>
                && Rev(StagedTree(old(fs).disk, staging).digest) !in old(fs).disk.names
                && staging !in fs.disk.names
                && Holds(fs.disk, Rev(StagedTree(old(fs).disk, staging).digest), old(fs).disk.names[staging].inode)
      ensures !created && Rev(StagedTree(old(fs).disk, staging).digest) !in old(fs).disk.names ==>
                !put && fs.disk == old(fs).disk
      ensures !put ==> Faults(turns) < Faults(old(turns)) || Rev(StagedTree(old(fs).disk, staging).digest) in old(fs).disk.names
      ensures Faults(old(turns)) == 0 && put ==> staging !in fs.disk.names
      ensures Faults(old(turns)) == 0 && !put ==>
                var tree := StagedTree(old(fs).disk, staging);
                RevisionClaimed(old(fs).disk, tree) || RevisionHinders(old(fs).disk, trace, |old(trace)| - 1, tree)
    {
      hide Inv, Step, WellFormed, Careful, Run, Chosen, Offers, RevisionHinders;
      ghost var n, choice, disk := |trace|, Chosen(fs.disk), fs.disk;
      var tree := StagedTree(fs.disk, staging);
      var dir := Rev(tree.digest);
      put, created := false, false;
      var ok := Sync();
      if !ok { return; }
      ghost var middle := trace;
      ok := Sync();
      StillOffers(middle, trace, n, choice, choice);
      if !ok { return; }
      middle := trace;
      if dir in fs.disk.names {
        put := ReuseOrReplace(staging);
        HindersStill(disk, trace, trace, |old(trace)| - 1, |middle| - 1, tree);
        StillOffers(middle, trace, n, choice, choice);
        return;
      }
      MovedToRevision(fs.disk, staging);
      created := Rename(staging, dir);
      StillOffers(middle, trace, n, choice, choice);
      if !created { return; }
      middle := trace;
      put := SyncStore();
      StillOffers(middle, trace, n, choice, choice);
    }

    /** The revision name is taken: by the very package, or by something the
        staged copy replaces in one exchange. */
    method ReuseOrReplace(staging: Path) returns (put: bool)
      requires Valid() && Staged(fs.disk, staging)
      requires Rev(StagedTree(fs.disk, staging).digest) in fs.disk.names
      modifies this
      ensures GoesOn() && Faults(turns) <= Faults(old(turns))
      ensures Chosen(fs.disk) == Chosen(old(fs).disk)
      ensures Offers(trace, |old(trace)|, Chosen(fs.disk), Chosen(fs.disk))
      ensures fs.disk.claims == old(fs).disk.claims
      ensures forall q :: q != staging && q != Rev(StagedTree(old(fs).disk, staging).digest) && !Scratch(q) ==>
                Lookup(fs.disk, q) == Lookup(old(fs).disk, q)
      ensures put ==> SameRevision(fs.disk, StagedTree(old(fs).disk, staging))
      ensures Faults(old(turns)) == 0 && put ==> staging !in fs.disk.names
      ensures Faults(old(turns)) == 0 && !put ==>
                var tree := StagedTree(old(fs).disk, staging);
                RevisionClaimed(old(fs).disk, tree) || RevisionHinders(old(fs).disk, trace, |old(trace)| - 1, tree)
    {
      hide Inv, Step, WellFormed, Careful, Run, Chosen, Offers, SameRevision, Intact, Resolves, ActiveIn, KeptAfter;
      ghost var n, choice := |trace|, Chosen(fs.disk);
      var tree := StagedTree(fs.disk, staging);
      var dir := Rev(tree.digest);
      Kinds(fs.disk, dir);
      OtherEntry(fs.disk, dir);
      OtherEntry(fs.disk, staging);
      StagedApart(fs.disk, staging);
      SameRevisionAt(fs.disk, tree);
      if SameRevision(fs.disk, tree) {
        ghost var before := fs.disk;
        var _ := RemoveTree(staging);
        SameRevisionStays(before, fs.disk, {staging}, {before.names[staging].inode}, tree);
        return true;
      }
      var claim := TryClaim(dir);
      put := false;
      if claim.InUse? { assert trace[|trace| - 1] == fs; }
      if !claim.Granted? { return; }
      ghost var middle := trace;
      ExchangedChoice(fs.disk, staging);
      put := Exchange(staging, dir);
      StillOffers(middle, trace, n, choice, choice);
      if put {
        middle := trace;
        ghost var before := fs.disk;
        RemoveClaimed(staging);
        SameRevisionStays(before, fs.disk, {staging}, {claim.inode}, tree);
        StillOffers(middle, trace, n, choice, choice);
      }
      middle := trace;
      ReleasedSame(fs.disk, claim.inode, tree);
      Release(claim.inode);
      StillOffers(middle, trace, n, choice, choice);
      if put {
        middle := trace;
        put := SyncStore();
        StillOffers(middle, trace, n, choice, choice);
      }
    }

    /** Flushes the directory of the app's revisions, and the one above. */
    method SyncStore() returns (ok: bool)
      requires Valid()
      modifies this
      ensures GoesOn() && fs.disk == old(fs).disk
      ensures Faults(turns) <= Faults(old(turns)) && (!ok ==> Faults(turns) < Faults(old(turns)))
      ensures Offers(trace, |old(trace)|, Chosen(fs.disk), Chosen(fs.disk))
    {
      hide Inv, Step, WellFormed, Careful, Run, Chosen, Offers;
      ok := Sync();
      if ok {
        ghost var middle := trace;
        ok := Sync();
        StillOffers(middle, trace, |old(trace)|, Chosen(fs.disk), Chosen(fs.disk));
      }
    }

    /** From the staged copy to an active revision, or back out. */
    method Place(staging: Path) returns (placed: bool)
      requires Valid() && Staged(fs.disk, staging) && Replaceable(fs)
      modifies this
      ensures GoesOn() && Faults(turns) <= Faults(old(turns))
      ensures fs.disk.claims == old(fs).disk.claims
      ensures AllOnTheWay(trace, |old(trace)|, Chosen(old(fs).disk), StagedTree(old(fs).disk, staging).digest)
      ensures var tree := StagedTree(old(fs).disk, staging);
        if placed then
          && Lookup(fs.disk, Entry) == Some(Link(tree.digest))
          && Lookup(fs.disk, Previous) == KeptAfter(old(fs).disk, tree.digest)
          && SameRevision(fs.disk, tree)
        else
          && Lookup(fs.disk, Entry) == Lookup(old(fs).disk, Entry)
          && Lookup(fs.disk, Previous) in {Lookup(old(fs).disk, Previous), KeptAfter(old(fs).disk, tree.digest)}
      ensures var dir := Rev(StagedTree(old(fs).disk, staging).digest);
        dir !in old(fs).disk.names && ActiveIn(old(fs).disk) != NotAPackage ==>
          (!placed && Faults(old(turns)) <= 1 ==> dir !in fs.disk.names && staging !in fs.disk.names)
      ensures Faults(old(turns)) == 0 && placed ==> Lookup(fs.disk, staging) == None
      ensures Faults(old(turns)) == 0 && ActiveIn(old(fs).disk) != NotAPackage && !placed ==>
                var tree := StagedTree(old(fs).disk, staging);
                RevisionClaimed(old(fs).disk, tree) || RevisionHinders(old(fs).disk, trace, |old(trace)| - 1, tree)
    {
      hide Inv, Step, WellFormed, Careful, Run, Chosen, Offers, AllOnTheWay, Unchanged, RevisionHinders, RevisionClaimed;
      ghost var start, disk := Chosen(fs.disk), fs.disk;
      ghost var tree := StagedTree(fs.disk, staging);
      var revision := StagedTree(fs.disk, staging).digest;
      ChosenParts(disk);
      OnTheWayNowhere(trace, start, revision);
      SameOffer(start, revision, start);
      NotNamed(disk, revision);
      var created;
      placed, created := PutRevision(staging);
      StayOnTheWay(old(trace), trace, |old(trace)|, start, revision, start, start);
      ghost var middle, put := trace, fs.disk;
      ChosenParts(put);
      if placed {
        placed := Activate(revision);
        OnTheWayAlong(middle, trace, |old(trace)|, start, revision);
        Activated(put, fs.disk, revision, placed);
        UnchangedAt(put, fs.disk, {Previous, ActiveTmp(put.next)} + if placed then {Entry} else {},
                    if placed then ReplacedDir(put) else {}, staging);
      }
      if !placed {
        middle := trace;
        ghost var now := Chosen(fs.disk);
        SameChoice(put, fs.disk);
        SameOffer(start, revision, now);
        CleanUp(staging, revision, created);
        HindersStill(disk, middle, trace, |old(trace)| - 1, |old(trace)| - 1, tree);
        StayOnTheWay(middle, trace, |old(trace)|, start, revision, now, now);
      }
    }

    /** What a failed installation leaves is removed. */
    method CleanUp(staging: Path, r: Digest, created: bool)
      requires Valid() && staging.Staging?
      requires created ==> Free(fs.disk, Rev(r)) && fs.disk.names[Rev(r)].Dir?
      modifies this
      ensures GoesOn() && Faults(turns) <= Faults(old(turns))
      ensures Chosen(fs.disk) == Chosen(old(fs).disk)
      ensures Offers(trace, |old(trace)|, Chosen(fs.disk), Chosen(fs.disk))
      ensures fs.disk.claims == old(fs).disk.claims
      ensures Lookup(fs.disk, Entry) == Lookup(old(fs).disk, Entry)
      ensures Lookup(fs.disk, Previous) == Lookup(old(fs).disk, Previous)
      ensures Faults(old(turns)) == 0 ==> staging !in fs.disk.names && (created ==> Rev(r) !in fs.disk.names)
      ensures !created && Rev(r) !in old(fs).disk.names ==> Rev(r) !in fs.disk.names
    {
      hide Inv, Step, WellFormed, Careful, Run, Chosen, Offers;
      ghost var n, choice, disk := |trace|, Chosen(fs.disk), fs.disk;
      OffersNothing(trace, choice, choice);
      if staging in fs.disk.names {
        Kinds(fs.disk, staging);
        OtherEntry(fs.disk, staging);
        var _ := RemoveTree(staging);
        assert Lookup(fs.disk, Rev(r)) == Lookup(disk, Rev(r));
      }
      if created {
        ghost var middle := trace;
        OtherEntry(fs.disk, Rev(r));
        ghost var before := fs.disk;
        var _ := RemoveTree(Rev(r));
        assert Lookup(fs.disk, staging) == Lookup(before, staging);
        StillOffers(middle, trace, n, choice, choice);
      }
    }

    // ----- App data in a package directory -----

    /** The rename of `DataMoved`; launches may have made it pointless, or
        impossible. */
    method MoveDataOut(i: Inode) returns (moved: bool)
      requires Valid() && Holds(fs.disk, Entry, i)
      modifies this
      ensures GoesOn() && fs.disk == old(fs).disk && Faults(turns) <= Faults(old(turns))
      ensures moved ==> i !in fs.legacy
      ensures Faults(old(turns)) == 0 && i in old(fs).legacy && !moved ==> fs.home.Some?
      ensures Offers(trace, |old(trace)|, Chosen(fs.disk), Chosen(fs.disk))
    {
      hide Inv, WellFormed, Step, Chosen, Run;
      var turn := Interfere();
      moved := !turn.fails && i in fs.legacy && fs.home.None?;
      if moved {
        ghost var before := fs;
        ActKeeps(fs, MoveData);
        fs := Act(fs, MoveData);
        ActIsStep(before, MoveData);
        RunGoesOn(trace, fs);
        trace := trace + [fs];
      }
    }

    /** Moves app data out of a claimed package directory before it is removed
        or replaced; `mayMove` is whether it is the user store's and may be
        app data. An emptied directory goes too. */
    method KeepLegacyData(mayMove: bool) returns (ok: bool)
      requires Valid() && ActiveIn(fs.disk).Directory? && ActiveIn(fs.disk).inode in fs.disk.claims
      modifies this
      ensures GoesOn() && Faults(turns) <= Faults(old(turns))
      ensures var i := ActiveIn(old(fs).disk).inode;
        && (ok ==> i !in fs.legacy)
        && (fs.disk == old(fs).disk
            || (Contents(old(fs).disk, i) == NoFiles && fs.disk == Dropped(old(fs).disk, Entry)))
      ensures Faults(old(turns)) == 0 && !ok ==>
                ActiveIn(old(fs).disk).inode in old(fs).legacy && (!mayMove || fs.home.Some?)
      ensures Offers(trace, |old(trace)|, Chosen(old(fs).disk), Chosen(fs.disk))
    {
      hide Inv, WellFormed, Step, Chosen, Run, Offers;
      ghost var n, choice := |trace|, Chosen(fs.disk);
      var i := ActiveIn(fs.disk).inode;
      var _ := Interfere();
      if i !in fs.legacy { return true; }
      if !mayMove { return false; }
      ghost var middle := trace;
      var moved;
      ok, moved := MigrateAppData(i);
      OffersEither(middle, n, choice, Chosen(fs.disk));
      StillOffers(middle, trace, n, choice, Chosen(fs.disk));
      if !ok || !moved { return; }
      middle := trace;
      ghost var now := Chosen(fs.disk);
      ok := Sync();
      OffersEither(trace, |middle|, now, choice);
      StillOffers(middle, trace, n, choice, now);
    }

    /** Takes the data of package directory `i` home, and removes the directory
        if nothing else is in it. */
    method MigrateAppData(i: Inode) returns (ok: bool, moved: bool)
      requires Valid() && Holds(fs.disk, Entry, i) && i in fs.disk.claims
      modifies this
      ensures GoesOn() && Faults(turns) <= Faults(old(turns))
      ensures ok ==> i !in fs.legacy
      ensures fs.disk == old(fs).disk
              || (ok && Contents(old(fs).disk, i) == NoFiles && fs.disk == Dropped(old(fs).disk, Entry))
      ensures Faults(old(turns)) == 0 && !ok ==> i in old(fs).legacy && fs.home.Some?
      ensures Offers(trace, |old(trace)|, Chosen(old(fs).disk), Chosen(fs.disk))
    {
      hide Inv, WellFormed, Step, Chosen, Run, Offers;
      ghost var n, choice := |trace|, Chosen(fs.disk);
      moved := false;
      var _ := Interfere();
      ok := i !in fs.legacy;
      if ok || fs.home.Some? { return; }
      ghost var middle := trace;
      ok := Sync();
      StillOffers(middle, trace, n, choice, choice);
      if !ok { return; }
      middle := trace;
      ok := MoveDataOut(i);
      moved := ok;
      StillOffers(middle, trace, n, choice, choice);
      if ok && Contents(fs.disk, i) == NoFiles {
        middle := trace;
        var _ := RemoveDir(Entry);
        OffersEither(middle, n, choice, Chosen(fs.disk));
        StillOffers(middle, trace, n, choice, Chosen(fs.disk));
      }
    }

    // ----- install_staged, uninstall -----

    /** Readies the entry to be replaced: a directory there is claimed and
        rid of data, and removed if it then is empty. */
    method ClearLegacy(mayMove: bool) returns (ready: bool, held: Option<Inode>)
      requires Valid()
      requires forall i :: Holds(fs.disk, Entry, i) ==> i !in fs.disk.claims
      modifies this
      ensures GoesOn() && Faults(turns) <= Faults(old(turns))
      ensures ready ==> Replaceable(fs) && ActiveIn(old(fs).disk) != NotAPackage
      ensures !ready ==> held == None
      ensures held.Some? ==> Holds(old(fs).disk, Entry, held.value)
      ensures Faults(old(turns)) == 0 && !ready ==>
                || ActiveIn(old(fs).disk) == NotAPackage
                || DirectoryHinders(old(fs), fs, trace, |old(trace)| - 1, mayMove)
      ensures Cleared(old(fs).disk, fs.disk, if held.Some? then {held.value} else {})
      ensures Offers(trace, |old(trace)|, Chosen(old(fs).disk), Chosen(fs.disk))
    {
      hide Inv, WellFormed, Step, Chosen, Run, Offers;
      OffersNothing(trace, Chosen(fs.disk), Chosen(fs.disk));
      match ActiveIn(fs.disk)
      case Directory(i) =>
        ready := ClaimCleared(i, mayMove);
        held := if ready && i in fs.disk.claims then Some(i) else None;
      case NotAPackage => held, ready := None, false;
      case _ => held, ready := None, true;
    }

    /** Claims package directory `i`, unless it is or becomes empty, and takes
        its data home. */
    method ClaimCleared(i: Inode, mayMove: bool) returns (ready: bool)
      requires Valid() && Holds(fs.disk, Entry, i) && i !in fs.disk.claims
      modifies this
      ensures GoesOn() && Faults(turns) <= Faults(old(turns))
      ensures i in fs.disk.claims ==> ready
      ensures ready ==> Replaceable(fs)
      ensures Faults(old(turns)) == 0 && ready && Contents(old(fs).disk, i) == NoFiles ==> Lookup(fs.disk, Entry) == None
      ensures Faults(old(turns)) == 0 && !ready ==> DirectoryHinders(old(fs), fs, trace, |old(trace)| - 1, mayMove)
      ensures Cleared(old(fs).disk, fs.disk, if i in fs.disk.claims then {i} else {})
      ensures Offers(trace, |old(trace)|, Chosen(old(fs).disk), Chosen(fs.disk))
    {
      hide Inv, WellFormed, Step, Chosen, Run, Offers;
      ghost var n, choice := |trace|, Chosen(fs.disk);
      ready := false;
      var claim := TryClaim(Entry);
      if claim.InUse? { assert trace[|trace| - 1] == fs; }
      if !claim.Granted? { return; }
      ghost var middle := trace;
      ready := KeepLegacyData(mayMove);
      OffersEither(middle, n, choice, Chosen(fs.disk));
      StillOffers(middle, trace, n, choice, Chosen(fs.disk));
      var emptied := Entry !in fs.disk.names;
      if ready && !emptied && Contents(fs.disk, i) == NoFiles {
        middle := trace;
        emptied := RemoveDir(Entry);
        OffersEither(middle, n, choice, Chosen(fs.disk));
        StillOffers(middle, trace, n, choice, Chosen(fs.disk));
      }
      if !ready || emptied {
        middle := trace;
        ghost var now := Chosen(fs.disk);
        Release(i);
        OffersEither(trace, |middle|, now, choice);
        StillOffers(middle, trace, n, choice, now);
      }
    }

    /** What an installation does while it holds the staged copy, and the
        package directory it replaces. */
    method PlaceStaged(staging: Path, mayMove: bool, admitted: bool) returns (ok: bool, held: Option<Inode>)
      requires Valid() && Staged(fs.disk, staging) && fs.disk.claims == {fs.disk.names[staging].inode}
      modifies this
      ensures GoesOn() && Faults(turns) <= Faults(old(turns))
      ensures fs.disk.claims == old(fs).disk.claims + if held.Some? then {held.value} else {}
      ensures AllOnTheWay(trace, |old(trace)|, Chosen(old(fs).disk), StagedTree(old(fs).disk, staging).digest)
      ensures var tree := StagedTree(old(fs).disk, staging);
        if ok then
          && admitted && Lookup(fs.disk, Entry) == Some(Link(tree.digest))
          && Lookup(fs.disk, Previous) == KeptAfter(old(fs).disk, tree.digest)
          && SameRevision(fs.disk, tree)
        else
          Resolves(fs.disk) == Resolves(old(fs).disk)
      ensures Faults(old(turns)) == 0 && admitted && !ok ==>
                Hindered(old(fs), fs, trace, |old(trace)| - 1, StagedTree(old(fs).disk, staging), mayMove)
    {
      hide Inv, Step, WellFormed, Careful, Run, Chosen, Offers, AllOnTheWay, SameRevision, Resolves, KeptAfter, OnTheWay, RevisionHinders, RevisionClaimed, DirectoryHinders;
      ghost var start, disk := Chosen(fs.disk), fs.disk;
      var revision := StagedTree(fs.disk, staging).digest;
      ChosenParts(disk);
      StagedElsewhere(disk, staging);
      var ready;
      ready, held := ClearLegacy(mayMove);
      ClearedChoice(disk, fs.disk, if held.Some? then {held.value} else {}, staging, revision);
      ghost var middle, cleared, mid := trace, fs.disk, fs;
      ghost var now := Chosen(cleared);
      ChosenParts(cleared);
      SameWay(start, revision, now);
      OnTheWayNowhere(old(trace), start, revision);
      StayOnTheWay(old(trace), middle, |old(trace)|, start, revision, start, now);
      ok := ready && admitted;
      if ok {
        ok := Place(staging);
        OnTheSameWay(trace, |middle|, start, now, revision);
        OnTheWayAlong(middle, trace, |old(trace)|, start, revision);
        if !ok {
          LastOnTheWay(old(trace), trace, start, revision, Chosen(fs.disk));
          SameEntry(cleared, fs.disk, revision, start);
        }
      }
      ghost var tree := StagedTree(disk, staging);
      ClearedRevision(disk, cleared, held, staging, trace, |middle| - 1);
      HindersStill(disk, trace, trace, |old(trace)| - 1, |middle| - 1, tree);
      DirectoryStill(old(fs), mid, fs, middle, trace, |old(trace)| - 1, mayMove);
    }

    /** Installs a staged package; `admitted` is whether its owner may. */
    method InstallStaged(staging: Path, mayMove: bool, admitted: bool, aged: set<Path>) returns (ok: bool, spared: set<Digest>)
      requires Valid() && Staged(fs.disk, staging) && fs.disk.claims == {fs.disk.names[staging].inode}
      modifies this
      ensures GoesOn() && fs.disk.claims == {} && Faults(turns) <= Faults(old(turns))
      ensures AllOnTheWay(trace, |old(trace)|, Chosen(old(fs).disk), StagedTree(old(fs).disk, staging).digest)
      ensures var tree := StagedTree(old(fs).disk, staging);
        if ok then
          && admitted && Lookup(fs.disk, Entry) == Some(Link(tree.digest))
          && Lookup(fs.disk, Previous) == KeptAfter(old(fs).disk, tree.digest)
          && SameRevision(fs.disk, tree)
        else
          Resolves(fs.disk) == Resolves(old(fs).disk)
      ensures ok && Faults(old(turns)) == 0 ==> Collected(fs.disk, spared, aged, trace, |old(trace)| - 1)
      ensures Faults(old(turns)) == 0 && admitted && !ok ==>
                Hindered(old(fs), fs, trace, |old(trace)| - 1, StagedTree(old(fs).disk, staging), mayMove)
    {
      hide Inv, Step, WellFormed, Careful, Run, Chosen, Offers, AllOnTheWay, SameRevision, Resolves, KeptAfter, OnTheWay;
      hide Swept, AllUsed, Hindered, Collected;
      spared := {};
      ghost var start := Chosen(fs.disk);
      var tree, s := StagedTree(fs.disk, staging), fs.disk.names[staging].inode;
      var held;
      ok, held := PlaceStaged(staging, mayMove, admitted);
      ghost var middle, now := trace, Chosen(fs.disk);
      ghost var first, mid := trace, fs;
      LastOnTheWay(old(trace), trace, start, tree.digest, now);
      ChosenParts(fs.disk);
      ReleasedSame(fs.disk, s, tree);
      Release(s);
      StayOnTheWay(middle, trace, |old(trace)|, start, tree.digest, now, now);
      if held.Some? {
        middle := trace;
        ReleasedSame(fs.disk, held.value, tree);
        Release(held.value);
        StayOnTheWay(middle, trace, |old(trace)|, start, tree.digest, now, now);
      }
      ChosenParts(fs.disk);
      HinderedStill(old(fs), mid, fs, first, trace, |old(trace)| - 1, tree, mayMove);
      if ok {
        middle := trace;
        ghost var before := fs.disk;
        spared := Collect(aged);
        if Faults(old(turns)) == 0 { CollectedEarlier(fs.disk, spared, aged, trace, |old(trace)| - 1, |middle| - 1); }
        StayOnTheWay(middle, trace, |old(trace)|, start, tree.digest, now, now);
        SweptSame(before, fs.disk, tree);
        SweptLookups(before, fs.disk);
      }
    }

    /** Copies a checked package into the store and installs the copy; the
        copy is removed if that fails. */
    method Install(tree: Tree, mayMove: bool, admitted: bool, aged: set<Path>) returns (ok: bool, spared: set<Digest>)
      requires Valid() && fs.disk.claims == {} && tree.Files?
      modifies this
      ensures GoesOn() && fs.disk.claims == {}
      ensures AllOnTheWay(trace, |old(trace)|, Chosen(old(fs).disk), tree.digest)
      ensures if ok then
                && admitted && Lookup(fs.disk, Entry) == Some(Link(tree.digest))
                && SameRevision(fs.disk, tree)
                // An earlier active revision is kept; without one, nothing is.
                && Lookup(fs.disk, Previous) ==
                     (match ActiveIn(old(fs).disk)
                      case Revision(c) => if c == tree.digest then Lookup(old(fs).disk, Previous) else Some(Link(c))
                      case _ => None)
              else
                Resolves(fs.disk) == Resolves(old(fs).disk)
      ensures ok && Faults(old(turns)) == 0 ==> Collected(fs.disk, spared, aged, trace, |old(trace)| - 1)
      ensures Faults(old(turns)) == 0 && admitted && !ok ==>
                Hindered(old(fs), fs, trace, |old(trace)| - 1, tree, mayMove)
      ensures Held(old(fs)) <= Held(fs)
    {
      hide Inv, Step, WellFormed, Careful, Run, Chosen, Offers, AllOnTheWay, SameRevision, Held, Hindered, Collected;
      spared := {};
      ghost var start := Chosen(fs.disk);
      var staging := Staging(fs.disk.next);
      CopiedCareful(fs.disk, tree);
      CopiedChoice(fs.disk, tree);
      Unused(fs.disk, staging);
      OnTheWayNowhere(trace, start, tree.digest);
      SameOffer(start, tree.digest, start);
      ChosenParts(fs.disk);
      ok := Apply(Copied(fs.disk, tree));
      StayOnTheWay(old(trace), trace, |old(trace)|, start, tree.digest, start, start);
      if ok {
        ghost var middle, copied := trace, fs;
        ChosenParts(fs.disk);
        ok, spared := InstallStaged(staging, mayMove, admitted, aged);
        if ok && Faults(old(turns)) == 0 {
          CollectedEarlier(fs.disk, spared, aged, trace, |old(trace)| - 1, |middle| - 1);
        }
        OnTheWayAlong(middle, trace, |old(trace)|, start, tree.digest);
        if !ok {
          ghost var first, mid := trace, fs;
          CopiedHinders(old(fs), copied, fs, trace, |old(trace)| - 1, |middle| - 1, tree, mayMove);
          ghost var now := Chosen(fs.disk);
          middle := trace;
          ChosenParts(fs.disk);
          LastOnTheWay(old(trace), trace, start, tree.digest, now);
          CleanUp(staging, tree.digest, false);
          HinderedStill(old(fs), mid, fs, first, trace, |old(trace)| - 1, tree, mayMove);
          ChosenParts(fs.disk);
          StayOnTheWay(middle, trace, |old(trace)|, start, tree.digest, now, now);
        }
      }
      NothingLost(old(trace), trace);
    }

    method UninstallRevision(dataHome: bool, aged: set<Path>) returns (ok: bool, spared: set<Digest>)
      requires Valid() && fs.disk.claims == {} && ActiveIn(fs.disk).Revision?
      modifies this
      ensures GoesOn() && fs.disk.claims == {} && Faults(turns) <= Faults(old(turns))
      ensures if ok then Lookup(fs.disk, Entry) == None else Lookup(fs.disk, Entry) in {Lookup(old(fs).disk, Entry), None}
      ensures Faults(old(turns)) == 0 ==>
                && ok && Lookup(fs.disk, Previous) == None
                && (dataHome ==> Collected(fs.disk, spared, aged, trace, |old(trace)| - 1))
      ensures AllUsed(trace, |old(trace)| - 1, spared)
    {
      hide Inv, Step, WellFormed, Careful, Run, Chosen, Offers, UsedSince, Swept, Resolves, Intact, Collected;
      spared := {};
      ok := Unlink(Entry);
      if !ok { return; }
      ok := Sync();
      if !ok { return; }
      if Previous in fs.disk.names {
        Kinds(fs.disk, Previous);
        var _ := Unlink(Previous);
      }
      var _ := Sync();
      if dataHome {
        ghost var middle, before := trace, fs.disk;
        spared := Collect(aged);
        UsedEarlier(trace, |old(trace)| - 1, |middle| - 1, spared);
        if Faults(old(turns)) == 0 { CollectedEarlier(fs.disk, spared, aged, trace, |old(trace)| - 1, |middle| - 1); }
        SweptLookups(before, fs.disk);
      }
    }

    /** The claim comes first, then the data, then the removal. */
    method UninstallDirectory(mayMove: bool) returns (ok: bool)
      requires Valid() && fs.disk.claims == {} && ActiveIn(fs.disk).Directory?
      modifies this
      ensures GoesOn() && fs.disk.claims == {} && Faults(turns) <= Faults(old(turns))
      ensures if ok then Lookup(fs.disk, Entry) == None else Lookup(fs.disk, Entry) in {Lookup(old(fs).disk, Entry), None}
      ensures ok ==>
                var i := ActiveIn(old(fs).disk).inode;
                ClaimedSince(trace, |old(trace)|, i) && i !in fs.legacy
      ensures Faults(old(turns)) == 0 && !ok ==> DirectoryHinders(old(fs), fs, trace, |old(trace)| - 1, mayMove)
    {
      hide Inv, Step, WellFormed, Careful, Run, Chosen, Offers;
      var claim := TryClaim(Entry);
      ok := false;
      if claim.InUse? { assert trace[|trace| - 1] == fs; }
      if claim.Granted? {
        assert claim.inode in trace[|trace| - 1].disk.claims;
        ghost var claimed := trace;
        ok := KeepLegacyData(mayMove);
        if ok && Entry in fs.disk.names {
          ok := RemoveTree(Entry);
        }
        Release(claim.inode);
        ClaimedStill(claimed, trace, |old(trace)|, claim.inode);
      }
    }

    /** Removes the app from the store. `dataHome` is whether the owner lock
        is held, which collecting needs. */
    method Uninstall(mayMove: bool, dataHome: bool, aged: set<Path>) returns (ok: bool, spared: set<Digest>)
      requires Valid() && fs.disk.claims == {}
      modifies this
      ensures GoesOn() && fs.disk.claims == {} && Held(old(fs)) <= Held(fs)
      ensures ok ==> Lookup(fs.disk, Entry) == None
      ensures ok && Faults(old(turns)) == 0 && ActiveIn(old(fs).disk).Revision? ==>
                && Lookup(fs.disk, Previous) == None
                && (dataHome ==> Collected(fs.disk, spared, aged, trace, |old(trace)| - 1))
      ensures Faults(old(turns)) == 0 && ActiveIn(old(fs).disk) == Absent && dataHome ==>
                Collected(fs.disk, spared, aged, trace, |old(trace)| - 1)
      ensures ok && ActiveIn(old(fs).disk).Directory? ==>
                var i := ActiveIn(old(fs).disk).inode;
                ClaimedSince(trace, |old(trace)|, i) && i !in fs.legacy
      ensures Faults(old(turns)) == 0 && !ok ==>
                || ActiveIn(old(fs).disk) == NotAPackage || ActiveIn(old(fs).disk) == Absent
                || DirectoryHinders(old(fs), fs, trace, |old(trace)| - 1, mayMove)
      ensures !ok ==> Lookup(fs.disk, Entry) in {Lookup(old(fs).disk, Entry), None}
      ensures AllUsed(trace, |old(trace)| - 1, spared)
    {
      hide Inv, Step, WellFormed, Careful, Run, Chosen, Offers, Held, AllUsed, Swept, DirectoryHinders, ClaimedSince, Collected;
      NoneUsed(trace, |trace| - 1);
      ok, spared := false, {};
      match ActiveIn(fs.disk) {
        case NotAPackage =>
        case Absent =>
          if dataHome {
            ghost var before := fs.disk;
            spared := Collect(aged);
            SweptLookups(before, fs.disk);
          }
        case Revision(_) => ok, spared := UninstallRevision(dataHome, aged);
        case Directory(_) =>
          ok := UninstallDirectory(mayMove);
          NoneUsed(trace, |old(trace)| - 1);
      }
      NothingLost(old(trace), trace);
    }
  }

  datatype Claim = Granted(inode: Inode) | InUse | Failed
}
