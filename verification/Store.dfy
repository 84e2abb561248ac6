/** A package store as the file system sees it: names, directories, locks and
    app data, with every system call one step. Launches step between the
    steps of a package operation, and a crash may follow any of them. */
module Store {
  import opened Options

  type Inode = nat

  /** A content digest, which is also the name of the revision holding it. */
  type Digest = nat

  type Signature = nat

  /** What a directory holds besides app data. */
  datatype Tree = NoFiles | Files(digest: Digest, signature: Option<Signature>, manifest: bool)

  datatype Node = Dir(inode: Inode) | Link(target: Digest) | Other

  /** The names one app has in a store. `Entry` is `<store>/<app_id>`, and
      `Previous` the rollback link; the rest of the links and directories
      that are not revisions have temporary names. */
  datatype Path =
    | Entry
    | Previous
    | Rev(revision: Digest)
    | Staging(n: nat)
    | ActiveTmp(n: nat)
    | PreviousTmp(n: nat)
    | Trash(n: nat)

  /** `claims` are the directories a package operation holds exclusively;
      temporary names from `next` on and directories from `inodes` on are
      unused. */
  datatype Disk = Disk(
    names: map<Path, Node>,
    trees: map<Inode, Tree>,
    claims: set<Inode>,
    next: nat,
    inodes: nat)

  /** How far a launch got: the directory opened, a shared lock taken on it,
      and the path checked to still name it. */
  datatype Session =
    | Opened(path: Path, inode: Inode)
    | Locked(path: Path, inode: Inode)
    | Pinned(path: Path, inode: Inode, tree: Tree)

  /** `legacy` is app data kept in a `data` directory inside a package
      directory, `home` the app's own data directory. */
  datatype Fs = Fs(
    disk: Disk,
    sessions: map<nat, Session>,
    legacy: map<Inode, nat>,
    home: Option<nat>)

  // ----- Reading a store -----

  /** The directories a launch can run from. */
  predicate Launchable(p: Path) { p.Entry? || p.Rev? }

  predicate Temporary(p: Path) { p.Staging? || p.ActiveTmp? || p.PreviousTmp? || p.Trash? }

  function Lookup(d: Disk, p: Path): Option<Node> { if p in d.names then Some(d.names[p]) else None }

  predicate Holds(d: Disk, p: Path, i: Inode) { p in d.names && d.names[p] == Dir(i) }

  function Contents(d: Disk, i: Inode): Tree { if i in d.trees then d.trees[i] else NoFiles }

  /** The revision `r` is there and holds the content it is named by. */
  predicate Intact(d: Disk, r: Digest) {
    Rev(r) in d.names && d.names[Rev(r)].Dir?
    && var tree := Contents(d, d.names[Rev(r)].inode); tree.Files? && tree.digest == r
  }

  /** The active link or the rollback link names `r`. */
  predicate Named(d: Disk, r: Digest) {
    Lookup(d, Entry) == Some(Link(r)) || Lookup(d, Previous) == Some(Link(r))
  }

  datatype Active = Absent | Directory(inode: Inode) | Revision(name: Digest) | NotAPackage

  function ActiveIn(d: Disk): Active {
    match Lookup(d, Entry)
    case None => Absent
    case Some(Dir(i)) => Directory(i)
    case Some(Link(r)) => if Rev(r) in d.names && d.names[Rev(r)].Dir? then Revision(r) else NotAPackage
    case Some(Other) => NotAPackage
  }

  /** The package a launch resolves to. */
  datatype Package = NoPackage | LegacyPackage(inode: Inode, tree: Tree) | RevisionPackage(name: Digest)

  function Resolves(d: Disk): Package {
    match ActiveIn(d)
    case Directory(i) =>
      if Contents(d, i).Files? && Contents(d, i).manifest then LegacyPackage(i, Contents(d, i)) else NoPackage
    case Revision(r) => RevisionPackage(r)
    case _ => NoPackage
  }

  // ----- What is always so -----

  predicate Fits(p: Path, node: Node) {
    match p
    case Entry => true
    case Previous => node.Link?
    case PreviousTmp(_) => node.Link?
    case ActiveTmp(_) => !node.Other?
    case _ => node.Dir?
  }

  /** Every directory has one name, unused names are unused, and a link names
      an intact revision. */
  ghost predicate WellFormed(d: Disk) {
    && (forall p, q :: p in d.names && q in d.names && d.names[p].Dir? && d.names[p] == d.names[q] ==> p == q)
    && (forall p :: p in d.names ==> Fits(p, d.names[p]) && (d.names[p].Dir? ==> d.names[p].inode < d.inodes))
    && (forall p :: p in d.names && Temporary(p) ==> p.n < d.next)
    && (forall r :: Named(d, r) ==> Intact(d, r))
  }

  predicate Shared(fs: Fs, i: Inode) {
    exists id :: id in fs.sessions && !fs.sessions[id].Opened? && fs.sessions[id].inode == i
  }

  /** A session that pins a directory keeps it under the path it was launched
      from, with the content it had. */
  predicate PinHolds(d: Disk, s: Session) {
    s.Pinned? ==> Holds(d, s.path, s.inode) && Contents(d, s.inode) == s.tree
  }

  predicate SessionOk(d: Disk, s: Session) {
    && Launchable(s.path)
    && s.inode < d.inodes
    && (!s.Opened? ==> s.inode !in d.claims)
    && PinHolds(d, s)
  }

  ghost predicate Inv(fs: Fs) {
    && WellFormed(fs.disk)
    && (forall id :: id in fs.sessions ==> SessionOk(fs.disk, fs.sessions[id]))
    && (forall i :: i in fs.legacy ==> Holds(fs.disk, Entry, i))
  }

  /** The app data there is, wherever it is kept. */
  function Held(fs: Fs): set<nat> {
    fs.legacy.Values + (if fs.home.Some? then {fs.home.value} else {})
  }

  // ----- Steps of launches -----

  /** One step of a launch, of a session ending, or of preparing app data. */
  datatype Action =
    | Open(id: nat, path: Path)
    | LockShared(id: nat)
    | Recheck(id: nat)
    | Exit(id: nat)
    | MoveData
    | CreateData(content: nat)

  /** One rename takes legacy data home, unless there is data at home. */
  function DataMoved(fs: Fs): Fs {
    match Lookup(fs.disk, Entry)
    case Some(Dir(i)) =>
      if i in fs.legacy && fs.home.None? then fs.(legacy := fs.legacy - {i}, home := Some(fs.legacy[i])) else fs
    case _ => fs
  }

  function Act(fs: Fs, a: Action): Fs {
    match a
    case Open(id, path) =>
      if id !in fs.sessions && Launchable(path) && path in fs.disk.names && fs.disk.names[path].Dir? then
        fs.(sessions := fs.sessions[id := Opened(path, fs.disk.names[path].inode)])
      else fs
    case LockShared(id) =>
      if id in fs.sessions && fs.sessions[id].Opened? then
        var s := fs.sessions[id];
        if s.inode in fs.disk.claims then fs.(sessions := fs.sessions - {id})
        else fs.(sessions := fs.sessions[id := Locked(s.path, s.inode)])
      else fs
    case Recheck(id) =>
      if id in fs.sessions && fs.sessions[id].Locked? then
        var s := fs.sessions[id];
        if Holds(fs.disk, s.path, s.inode) then
          fs.(sessions := fs.sessions[id := Pinned(s.path, s.inode, Contents(fs.disk, s.inode))])
        else fs.(sessions := fs.sessions - {id})
      else fs
    case Exit(id) => fs.(sessions := fs.sessions - {id})
    case MoveData => DataMoved(fs)
    case CreateData(content) => if fs.home.None? then fs.(home := Some(content)) else fs
  }

  // ----- Steps of package operations -----

  /** The change of a disk that leaves launches alone: what a launch can run
      from changes only while it is claimed, and what is claimed is new. */
  ghost predicate Careful(d: Disk, e: Disk) {
    && WellFormed(e)
    && d.inodes <= e.inodes
    && (forall i :: i in e.claims ==> i in d.claims || d.inodes <= i)
    && (forall p, i :: Launchable(p) && Holds(d, p, i) && i !in d.claims ==>
          Holds(e, p, i) && Contents(e, i) == Contents(d, i))
  }

  /** A step of a package operation: a careful change that leaves no data
      behind, or a claim on a directory no session has locked. */
  ghost predicate OperationStep(fs: Fs, gs: Fs) {
    && gs == fs.(disk := gs.disk)
    && ((Careful(fs.disk, gs.disk) && forall i :: i in fs.legacy ==> Holds(gs.disk, Entry, i))
        || exists i: Inode :: !Shared(fs, i) && gs.disk == Claimed(fs.disk, i))
  }

  function Claimed(d: Disk, i: Inode): Disk { d.(claims := d.claims + {i}) }

  /** A package operation is cut short: its locks go with it. */
  function Crashed(fs: Fs): Fs { fs.(disk := fs.disk.(claims := {})) }

  ghost predicate Step(fs: Fs, gs: Fs) {
    (exists a: Action :: gs == Act(fs, a)) || OperationStep(fs, gs) || gs == Crashed(fs)
  }

  ghost predicate Run(states: seq<Fs>) {
    && |states| > 0
    && Inv(states[0])
    && forall k {:trigger states[k]} :: 0 < k < |states| ==> Step(states[k - 1], states[k])
  }

  /** A pin that is still there is the pin that was there. */
  ghost predicate PinsStay(fs: Fs, gs: Fs) {
    forall id :: id in fs.sessions && fs.sessions[id].Pinned? && id in gs.sessions ==> gs.sessions[id] == fs.sessions[id]
  }

  lemma ActKeeps(fs: Fs, a: Action)
    requires Inv(fs)
    ensures var gs := Act(fs, a);
      && Inv(gs) && PinsStay(fs, gs) && Held(fs) <= Held(gs) && gs.disk == fs.disk && gs.legacy.Keys <= fs.legacy.Keys
      && (gs.legacy == fs.legacy || gs.home.Some?) && (fs.home.Some? ==> gs.home.Some?)
      && (a.CreateData? && fs.home.None? ==> gs.home == Some(a.content))
  {
    hide WellFormed;
    match a
    case MoveData => DataMovedKeeps(fs);
    case CreateData(content) =>
    case _ => SessionActKeeps(fs, a);
  }

  lemma SessionActKeeps(fs: Fs, a: Action)
    requires Inv(fs) && (a.Open? || a.LockShared? || a.Recheck? || a.Exit?)
    ensures Inv(Act(fs, a)) && PinsStay(fs, Act(fs, a))
    ensures Act(fs, a) == fs.(sessions := Act(fs, a).sessions)
  {
    InodeUsed(fs.disk);
    hide WellFormed;
    var gs := Act(fs, a);
    forall id | id in gs.sessions ensures SessionOk(fs.disk, gs.sessions[id]) {
      if id in fs.sessions { assert SessionOk(fs.disk, fs.sessions[id]); }
    }
  }

  lemma InodeUsed(d: Disk)
    requires WellFormed(d)
    ensures forall p :: p in d.names && d.names[p].Dir? ==> d.names[p].inode < d.inodes
  {
  }

  lemma DataMovedKeeps(fs: Fs)
    requires Inv(fs)
    ensures Inv(DataMoved(fs)) && Held(DataMoved(fs)) == Held(fs)
    ensures DataMoved(fs).disk == fs.disk && DataMoved(fs).sessions == fs.sessions
    ensures DataMoved(fs).legacy.Keys <= fs.legacy.Keys
    ensures DataMoved(fs).legacy == fs.legacy || DataMoved(fs).home.Some?
    ensures forall i :: i in fs.legacy ==>
              DataMoved(fs).home == (if fs.home.Some? then fs.home else Some(fs.legacy[i]))
              && (i in DataMoved(fs).legacy <==> fs.home.Some?)
  {
    hide WellFormed;
    var gs := DataMoved(fs);
    if gs != fs {
      var i := fs.disk.names[Entry].inode;
      assert forall j :: j in fs.legacy ==> j == i;
      assert fs.legacy == map[i := fs.legacy[i]] && gs.legacy == map[];
    }
  }

  lemma OperationKeeps(fs: Fs, gs: Fs)
    requires Inv(fs) && OperationStep(fs, gs)
    ensures Inv(gs) && gs.sessions == fs.sessions && Held(gs) == Held(fs)
  {
    ClaimsAside(fs.disk, gs.disk.claims);
    forall id | id in fs.sessions ensures SessionOk(gs.disk, fs.sessions[id]) {
      hide WellFormed;
      var s := fs.sessions[id];
      assert SessionOk(fs.disk, s);
      if s.Locked? || s.Pinned? { assert Shared(fs, s.inode); }
    }
  }

  /** Who holds what does not change what is there. */
  lemma ClaimsAside(d: Disk, claims: set<Inode>)
    requires WellFormed(d)
    ensures WellFormed(d.(claims := claims)) && Resolves(d.(claims := claims)) == Resolves(d)
  {
    var e := d.(claims := claims);
    forall r | Named(e, r) ensures Intact(e, r) { assert Named(d, r); }
  }

  lemma CrashKeeps(fs: Fs)
    requires Inv(fs)
    ensures Inv(Crashed(fs)) && Resolves(Crashed(fs).disk) == Resolves(fs.disk)
  {
    ClaimsAside(fs.disk, {});
    hide WellFormed;
    forall id | id in fs.sessions ensures SessionOk(Crashed(fs).disk, fs.sessions[id]) {
      assert SessionOk(fs.disk, fs.sessions[id]);
    }
  }

  lemma ActIsStep(fs: Fs, a: Action)
    ensures Step(fs, Act(fs, a))
  {
  }

  lemma RunGoesOn(states: seq<Fs>, gs: Fs)
    requires Run(states) && Step(states[|states| - 1], gs)
    ensures Run(states + [gs])
  {
    hide Step, Inv;
    var longer := states + [gs];
    forall k | 0 < k < |longer| ensures Step(longer[k - 1], longer[k]) {
      if k < |states| { assert Step(states[k - 1], states[k]); }
    }
  }

  lemma OperationIsStep(fs: Fs, gs: Fs)
    requires OperationStep(fs, gs)
    ensures Step(fs, gs)
  {
  }

  lemma ClaimIsStep(fs: Fs, i: Inode)
    requires !Shared(fs, i)
    ensures OperationStep(fs, fs.(disk := Claimed(fs.disk, i))) && Step(fs, fs.(disk := Claimed(fs.disk, i)))
  {
  }

  lemma ReleasedIsStep(fs: Fs, i: Inode)
    requires Inv(fs)
    ensures OperationStep(fs, fs.(disk := Released(fs.disk, i))) && Step(fs, fs.(disk := Released(fs.disk, i)))
  {
    ReleasedCareful(fs.disk, i);
  }

  lemma StepKeeps(fs: Fs, gs: Fs)
    requires Inv(fs) && Step(fs, gs)
    ensures Inv(gs) && PinsStay(fs, gs) && Held(fs) <= Held(gs)
  {
    hide Inv, OperationStep, Act;
    if OperationStep(fs, gs) {
      OperationKeeps(fs, gs);
    } else if gs == Crashed(fs) {
      CrashKeeps(fs);
    } else {
      var a :| gs == Act(fs, a);
      ActKeeps(fs, a);
    }
  }

  /** Every state of every run, crashes included, keeps the invariant, and no
      app data is lost on the way. */
  lemma {:induction false} RunKeeps(states: seq<Fs>, j: nat, k: nat)
    requires Run(states) && j <= k < |states|
    ensures Inv(states[j]) && Inv(states[k]) && Held(states[j]) <= Held(states[k])
    decreases k
  {
    hide Inv, Step, Held;
    if j < k {
      RunKeeps(states, j, k - 1);
      StepKeeps(states[k - 1], states[k]);
    } else if k > 0 {
      RunKeeps(states, k - 1, k - 1);
      StepKeeps(states[k - 1], states[k]);
    }
  }

  /** While a session holds its pin, the path it was launched from names the
      directory it pinned, with the content it had then, whatever launches
      and package operations do in between. */
  lemma {:induction false} PinnedPackageStays(states: seq<Fs>, id: nat, j: nat, k: nat)
    requires Run(states) && j <= k < |states|
    requires forall m :: j <= m <= k ==> id in states[m].sessions
    requires states[j].sessions[id].Pinned?
    ensures var s := states[j].sessions[id];
      && states[k].sessions[id] == s
      && Holds(states[k].disk, s.path, s.inode)
      && Contents(states[k].disk, s.inode) == s.tree == Contents(states[j].disk, s.inode)
    decreases k
  {
    hide Step;
    RunKeeps(states, j, k);
    assert SessionOk(states[j].disk, states[j].sessions[id]);
    if j < k {
      PinnedPackageStays(states, id, j, k - 1);
      RunKeeps(states, k - 1, k - 1);
      StepKeeps(states[k - 1], states[k]);
      assert SessionOk(states[k].disk, states[k].sessions[id]);
    }
  }

  // ----- When a launch gets its pin -----

  function SessionOf(fs: Fs, id: nat): Option<Session> {
    if id in fs.sessions then Some(fs.sessions[id]) else None
  }

  /** The launch `id`, or its session ending, takes this step. */
  predicate ByLaunch(a: Action, id: nat) { (a.Open? || a.LockShared? || a.Recheck? || a.Exit?) && a.id == id }

  /** A step of anybody but the launch `id`. */
  ghost predicate ByOthers(fs: Fs, gs: Fs, id: nat) {
    || (exists a: Action :: !ByLaunch(a, id) && gs == Act(fs, a))
    || OperationStep(fs, gs) || gs == Crashed(fs)
  }

  lemma {:induction false} OthersLeaveSession(states: seq<Fs>, id: nat, j: nat, k: nat)
    requires j <= k < |states|
    requires forall m {:trigger states[m]} :: j < m <= k ==> ByOthers(states[m - 1], states[m], id)
    ensures SessionOf(states[k], id) == SessionOf(states[j], id)
    decreases k
  {
    if j < k {
      OthersLeaveSession(states, id, j, k - 1);
      OneLeavesSession(states[k - 1], states[k], id);
    }
  }

  lemma OneLeavesSession(fs: Fs, gs: Fs, id: nat)
    requires ByOthers(fs, gs, id)
    ensures SessionOf(gs, id) == SessionOf(fs, id)
  {
    hide Careful;
    if OperationStep(fs, gs) || gs == Crashed(fs) {
      assert gs.sessions == fs.sessions;
    } else {
      var a: Action :| !ByLaunch(a, id) && gs == Act(fs, a);
    }
  }

  /** A launch opens the directory `i` at `path`, locks it and rechecks the path,
      with anything of others in between. It ends with its pin exactly when
      nobody claimed the directory at its lock and the path still named it at
      its recheck, and otherwise it is refused. */
  lemma LaunchGetsPin(states: seq<Fs>, id: nat, path: Path, i: Inode, open: nat, locked: nat, checked: nat)
    requires open < locked < checked < |states| - 1
    requires SessionOf(states[open], id) == None && Launchable(path) && Holds(states[open].disk, path, i)
    requires states[open + 1] == Act(states[open], Open(id, path))
    requires states[locked + 1] == Act(states[locked], LockShared(id))
    requires states[checked + 1] == Act(states[checked], Recheck(id))
    requires forall m {:trigger states[m]} :: open + 1 < m <= locked ==> ByOthers(states[m - 1], states[m], id)
    requires forall m {:trigger states[m]} :: locked + 1 < m <= checked ==> ByOthers(states[m - 1], states[m], id)
    ensures SessionOf(states[checked + 1], id) ==
              if i !in states[locked].disk.claims && Holds(states[checked].disk, path, i)
              then Some(Pinned(path, i, Contents(states[checked].disk, i)))
              else None
  {
    hide Act, SessionOf, Holds, Contents, ByOthers;
    LaunchSteps(states[open], id, path, i);
    OthersLeaveSession(states, id, open + 1, locked);
    LaunchSteps(states[locked], id, path, i);
    OthersLeaveSession(states, id, locked + 1, checked);
    LaunchSteps(states[checked], id, path, i);
  }

  lemma LaunchSteps(fs: Fs, id: nat, path: Path, i: Inode)
    ensures SessionOf(fs, id) == None && Launchable(path) && Holds(fs.disk, path, i) ==>
              SessionOf(Act(fs, Open(id, path)), id) == Some(Opened(path, i))
    ensures SessionOf(fs, id) == Some(Opened(path, i)) ==>
              SessionOf(Act(fs, LockShared(id)), id) == if i in fs.disk.claims then None else Some(Locked(path, i))
    ensures SessionOf(fs, id) == Some(Locked(path, i)) ==>
              SessionOf(Act(fs, Recheck(id)), id) ==
                if Holds(fs.disk, path, i) then Some(Pinned(path, i, Contents(fs.disk, i))) else None
    ensures SessionOf(fs, id) == None ==> SessionOf(Act(fs, Recheck(id)), id) == None
    ensures SessionOf(Act(fs, Exit(id)), id) == None
  {
  }

  /** A directory a session has locked all along keeps its path and its content. */
  lemma {:induction false} LockedStays(states: seq<Fs>, j: nat, k: nat, p: Path, i: Inode)
    requires Run(states) && j <= k < |states| && Launchable(p) && Holds(states[j].disk, p, i)
    requires forall m {:trigger states[m]} :: j <= m < k ==> Shared(states[m], i)
    ensures Holds(states[k].disk, p, i) && Contents(states[k].disk, i) == Contents(states[j].disk, i)
    decreases k
  {
    if j < k {
      LockedStays(states, j, k - 1, p, i);
      RunKeeps(states, k - 1, k - 1);
      LockedKept(states[k - 1], states[k], p, i);
    }
  }

  lemma LockedKept(fs: Fs, gs: Fs, p: Path, i: Inode)
    requires Inv(fs) && Step(fs, gs) && Launchable(p) && Holds(fs.disk, p, i) && Shared(fs, i)
    ensures Holds(gs.disk, p, i) && Contents(gs.disk, i) == Contents(fs.disk, i)
  {
    var id :| id in fs.sessions && !fs.sessions[id].Opened? && fs.sessions[id].inode == i;
    assert SessionOk(fs.disk, fs.sessions[id]) && i !in fs.disk.claims;
    hide WellFormed, Inv;
    if OperationStep(fs, gs) {
    } else if gs == Crashed(fs) {
    } else {
      var a: Action :| gs == Act(fs, a);
    }
  }

  /** A launch that locks the directory its path still names, while nobody
      claims it, always gets its pin. */
  lemma LockedLaunchIsPinned(states: seq<Fs>, id: nat, path: Path, i: Inode, locked: nat, checked: nat)
    requires Run(states) && locked < checked < |states| - 1
    requires SessionOf(states[locked], id) == Some(Opened(path, i)) && Launchable(path)
    requires Holds(states[locked].disk, path, i) && i !in states[locked].disk.claims
    requires states[locked + 1] == Act(states[locked], LockShared(id))
    requires states[checked + 1] == Act(states[checked], Recheck(id))
    requires forall m {:trigger states[m]} :: locked + 1 < m <= checked ==> ByOthers(states[m - 1], states[m], id)
    ensures SessionOf(states[checked + 1], id) == Some(Pinned(path, i, Contents(states[locked].disk, i)))
  {
    forall m {:trigger states[m]} | locked + 1 <= m <= checked ensures Shared(states[m], i) {
      OthersLeaveSession(states, id, locked + 1, m);
      assert SessionOf(states[m], id) == Some(Locked(path, i));
      assert id in states[m].sessions && !states[m].sessions[id].Opened? && states[m].sessions[id].inode == i;
    }
    LockedStays(states, locked + 1, checked, path, i);
    OthersLeaveSession(states, id, locked + 1, checked);
    hide ByOthers, Run, Inv;
  }

  /** An operation cut short after any state, and a later one, make one run. */
  lemma CutShort(first: seq<Fs>, k: nat, later: seq<Fs>)
    requires Run(first) && k < |first| && Run(later) && later[0] == Crashed(first[k])
    ensures Run(first[..k + 1] + later)
  {
    hide Inv, Act, OperationStep;
    var states := first[..k + 1] + later;
    forall m {:trigger states[m]} | 0 < m < |states| ensures Step(states[m - 1], states[m]) {
      if m <= k {
        assert Step(first[m - 1], first[m]);
      } else if m > k + 1 {
        assert Step(later[m - k - 2], later[m - k - 1]);
      }
    }
  }

  /** In every state a launch finds the package directory or an intact
      revision, and the rollback link names an intact one. */
  lemma LinksAreWhole(states: seq<Fs>, k: nat)
    requires Run(states) && k < |states|
    ensures var d := states[k].disk;
      && (Lookup(d, Entry).Some? && Lookup(d, Entry).value.Link? ==>
            ActiveIn(d) == Revision(d.names[Entry].target) && Intact(d, d.names[Entry].target))
      && (Lookup(d, Previous).Some? ==> Lookup(d, Previous).value.Link? && Intact(d, d.names[Previous].target))
  {
    hide Step;
    RunKeeps(states, k, k);
    var d := states[k].disk;
    if Entry in d.names && d.names[Entry].Link? { assert Named(d, d.names[Entry].target); }
    if Previous in d.names { assert Fits(Previous, d.names[Previous]) && Named(d, d.names[Previous].target); }
  }

  // ----- The calls package operations make -----

  function Linked(d: Disk, p: Path, target: Digest): Disk
    requires p.ActiveTmp? || p.PreviousTmp?
  {
    d.(names := d.names[p := Link(target)], next := if p.n < d.next then d.next else p.n + 1)
  }

  function Moved(d: Disk, from: Path, to: Path): Disk
    requires from in d.names
  {
    d.(names := (d.names - {from})[to := d.names[from]],
       next := if Temporary(to) && d.next <= to.n then to.n + 1 else d.next)
  }

  function Exchanged(d: Disk, a: Path, b: Path): Disk
    requires a in d.names && b in d.names
  {
    d.(names := d.names[a := d.names[b]][b := d.names[a]])
  }

  function Dropped(d: Disk, p: Path): Disk { d.(names := d.names - {p}) }

  function Rewritten(d: Disk, i: Inode, tree: Tree): Disk { d.(trees := d.trees[i := tree]) }

  function Released(d: Disk, i: Inode): Disk { d.(claims := d.claims - {i}) }

  /** A package is copied to a staging directory, and the copy claimed. */
  function Copied(d: Disk, tree: Tree): Disk {
    d.(names := d.names[Staging(d.next) := Dir(d.inodes)], trees := d.trees[d.inodes := tree],
       claims := d.claims + {d.inodes}, next := d.next + 1, inodes := d.inodes + 1)
  }

  /** A node that may be taken from `p`: what a launch can run from is
      claimed first, and what a link names stays. */
  predicate Free(d: Disk, p: Path) {
    && p in d.names
    && (Launchable(p) && d.names[p].Dir? ==> d.names[p].inode in d.claims)
    && (p.Rev? ==> !Named(d, p.revision))
  }

  lemma LinkedCareful(d: Disk, p: Path, target: Digest)
    requires WellFormed(d) && (p.ActiveTmp? || p.PreviousTmp?) && p.n == d.next
    ensures Careful(d, Linked(d, p, target))
  {
    forall r | Named(Linked(d, p, target), r) ensures Intact(Linked(d, p, target), r) { assert Named(d, r); }
  }

  lemma DroppedCareful(d: Disk, p: Path)
    requires WellFormed(d) && Free(d, p)
    ensures Careful(d, Dropped(d, p))
  {
    forall r | Named(Dropped(d, p), r) ensures Intact(Dropped(d, p), r) { assert Named(d, r); }
  }

  /** A directory moves to an unused name, or a link replaces a link. */
  lemma MovedCareful(d: Disk, from: Path, to: Path)
    requires WellFormed(d) && Free(d, from) && from != to && Fits(to, d.names[from])
    requires to !in d.names || (!d.names[to].Dir? && d.names[from].Link?)
    requires (to.Entry? || to.Previous?) && d.names[from].Link? ==> Intact(d, d.names[from].target)
    ensures Careful(d, Moved(d, from, to))
  {
    var e := Moved(d, from, to);
    forall r | Named(e, r) ensures Intact(e, r) {
      if !Named(d, r) {
        assert d.names[from] == Link(r);
      }
      assert Intact(d, r);
    }
    MovedApart(d, from, to);
  }

  lemma MovedApart(d: Disk, from: Path, to: Path)
    requires WellFormed(d) && from in d.names && from != to
    requires to !in d.names || !d.names[to].Dir?
    ensures var e := Moved(d, from, to);
      forall p, q :: p in e.names && q in e.names && e.names[p].Dir? && e.names[p] == e.names[q] ==> p == q
  {
    var e := Moved(d, from, to);
    forall p, q | p in e.names && q in e.names && e.names[p].Dir? && e.names[p] == e.names[q] ensures p == q {
      var p0, q0 := if p == to then from else p, if q == to then from else q;
      assert d.names[p0] == e.names[p] && d.names[q0] == e.names[q];
    }
  }

  /** Two names change places in one step: a claimed directory for another
      one of the same content name, or for a link. */
  lemma ExchangedCareful(d: Disk, a: Path, b: Path)
    requires WellFormed(d) && Temporary(a) && a in d.names && b in d.names
    requires Launchable(b) && d.names[b].Dir? && d.names[b].inode in d.claims
    requires Fits(a, d.names[b]) && Fits(b, d.names[a])
    requires b.Rev? ==> d.names[a].Dir? && Contents(d, d.names[a].inode).Files?
                        && Contents(d, d.names[a].inode).digest == b.revision
    requires b.Entry? && d.names[a].Link? ==> Intact(d, d.names[a].target)
    ensures Careful(d, Exchanged(d, a, b))
  {
    var e := Exchanged(d, a, b);
    forall r | Named(e, r) ensures Intact(e, r) {
      if Named(d, r) { assert Intact(d, r); }
    }
  }

  /** The files of a directory change: nothing links to it, and a launch can
      run from it only if it is claimed. */
  lemma RewrittenCareful(d: Disk, p: Path, tree: Tree)
    requires WellFormed(d) && Free(d, p) && d.names[p].Dir?
    ensures Careful(d, Rewritten(d, d.names[p].inode, tree))
  {
    var e := Rewritten(d, d.names[p].inode, tree);
    forall r | Named(e, r) ensures Intact(e, r) {
      assert Named(d, r) && Intact(d, r);
      assert Rev(r) != p;
    }
  }

  lemma ReleasedCareful(d: Disk, i: Inode)
    requires WellFormed(d)
    ensures Careful(d, Released(d, i))
  {
    forall r | Named(Released(d, i), r) ensures Intact(Released(d, i), r) { assert Named(d, r); }
  }

  lemma CopiedCareful(d: Disk, tree: Tree)
    requires WellFormed(d)
    ensures Careful(d, Copied(d, tree))
  {
    var e := Copied(d, tree);
    forall r | Named(e, r) ensures Intact(e, r) { assert Named(d, r) && Intact(d, r); }
  }
}
