/** What weft-runtime makes of its command line, and that it is what the
    manifest's capabilities declare. */
module RuntimeGrants {
  import opened Options
  import opened Names
  import opened Capabilities
  import SG = SessionGrants

  datatype Preopen = Preopen(host: string, guest: string, access: Access)

  /** The grants for host imports. */
  datatype Imports = Imports(fetch: seq<FetchScope>, notifications: bool, clipboardRead: bool, clipboardWrite: bool)

  const NO_IMPORTS := Imports([], false, false, false)

  // ----- Preopens -----

  /** The text before and after the last `::`. */
  function RSplit(s: string): Option<(string, string)> {
    if |s| < 2 then None
    else if s[|s| - 2..] == "::" then Some((s[..|s| - 2], ""))
    else
      match RSplit(s[..|s| - 1])
      case None => None
      case Some((before, after)) => Some((before, after + [s[|s| - 1]]))
  }

  lemma {:induction false} RSplitLast(a: string, b: string)
    requires !SG.HasColons(b) && (b != "" ==> b[0] != ':')
    ensures RSplit(a + "::" + b) == Some((a, b))
  {
    var s := a + "::" + b;
    if b == "" {
      assert s[|s| - 2..] == "::" && s[..|s| - 2] == a;
    } else {
      var shorter := b[..|b| - 1];
      assert s[..|s| - 1] == a + "::" + shorter;
      forall i | 0 <= i < |shorter| - 1 ensures !(shorter[i] == ':' && shorter[i + 1] == ':') {
        assert shorter[i] == b[i] && shorter[i + 1] == b[i + 1];
      }
      RSplitLast(a, shorter);
      var end := s[|s| - 2..];
      assert end[1] == b[|b| - 1];
      if |b| > 1 {
        assert end[0] == b[|b| - 2] && !(b[|b| - 2] == ':' && b[|b| - 2 + 1] == ':');
      }
      assert end != "::";
      assert shorter + [b[|b| - 1]] == b;
    }
  }

  function ParsePreopen(spec: string): Option<Preopen> {
    match RSplit(spec)
    case None => None
    case Some((rest, mode)) =>
      match RSplit(rest)
      case None => None
      case Some((host, guest)) =>
        if mode != "ro" && mode != "rw" then None
        else if host == "" || guest == "" || guest[0] != '/' then None
        else Some(Preopen(host, guest, if mode == "ro" then Read else ReadWrite))
  }

  /** Any host path survives the encoding, also one holding `::` or ending in
      a colon. */
  lemma PreopenRoundTrip(d: SG.GrantedDir)
    requires d.host != "" && d.guest != "" && d.guest[0] == '/' && !SG.HasColons(d.guest)
    ensures ParsePreopen(SG.PreopenArg(d)) == Some(Preopen(d.host, d.guest, d.access))
  {
    var mode := if d.access.Read? then "ro" else "rw";
    RSplitLast(d.host + "::" + d.guest, mode);
    RSplitLast(d.host, d.guest);
    assert "ro"[1] == 'o' && "rw"[1] == 'w';
    assert SG.PreopenArg(d) == d.host + "::" + d.guest + "::" + mode;
  }

  // ----- Imports -----

  /** One `--grant` argument; None refuses it. */
  function Added(g: Imports, spec: string): Option<Imports> {
    match Parse(spec)
    case Some(Fetch(scope)) => Some(g.(fetch := g.fetch + [scope]))
    case Some(Notifications) => Some(g.(notifications := true))
    case Some(ClipboardRead) => Some(g.(clipboardRead := true))
    case Some(ClipboardWrite) => Some(g.(clipboardWrite := true))
    case _ => None
  }

  class Grants {
    var fetch: seq<FetchScope>
    var notifications: bool
    var clipboardRead: bool
    var clipboardWrite: bool

    constructor ()
      ensures View() == NO_IMPORTS
    {
      fetch, notifications, clipboardRead, clipboardWrite := [], false, false, false;
    }

    function View(): Imports
      reads this
    {
      Imports(fetch, notifications, clipboardRead, clipboardWrite)
    }

    method Add(spec: string) returns (ok: bool)
      modifies this
      ensures match Added(old(View()), spec) case Some(g) => ok && View() == g case None => !ok && View() == old(View())
    {
      match Parse(spec) {
        case Some(Fetch(scope)) => fetch := fetch + [scope];
        case Some(Notifications) => notifications := true;
        case Some(ClipboardRead) => clipboardRead := true;
        case Some(ClipboardWrite) => clipboardWrite := true;
        case _ => return false;
      }
      return true;
    }
  }

  datatype Reach = Public | Declared

  /** Which addresses a request to `host` may reach; None refuses it. */
  function FetchHost(fetch: seq<FetchScope>, host: string): Option<Reach> {
    if IsIpv4(Split(host, '.')) && Host(host) in fetch then Some(Declared)
    else if AnyHost in fetch || Host(host) in fetch then Some(Public)
    else None
  }

  // ----- The command line -----

  /** What the arguments say. */
  datatype Command = Command(
    preopens: seq<Preopen>,
    imports: Imports,
    socket: Option<string>,
    wasm: Option<string>,
    memory: Option<string>)

  const EMPTY := Command([], NO_IMPORTS, None, None, None)

  /** A memory limit in MiB, from 1 to 2^20, with an optional sign. */
  predicate IsMemory(value: string) {
    var digits := if value != "" && value[0] == '+' then value[1..] else value;
    digits != "" && AllDigits(digits) && 0 < Number(digits) <= 0x10_0000
  }

  /** One option and its value. */
  function Applied(c: Command, option: string, value: string): Option<Command> {
    if option == "--preopen" then
      match ParsePreopen(value) case Some(p) => Some(c.(preopens := c.preopens + [p])) case None => None
    else if option == "--grant" then
      match Added(c.imports, value) case Some(g) => Some(c.(imports := g)) case None => None
    else if option == "--module" then Some(c.(wasm := Some(value)))
    else if option == "--max-memory-mib" then if IsMemory(value) then Some(c.(memory := Some(value))) else None
    else if option == "--ipc-socket" then Some(c.(socket := Some(value)))
    else None
  }

  function Accepted(c: Command, args: seq<string>): Option<Command>
    decreases |args|
  {
    if args == [] then Some(c)
    else if |args| == 1 then None
    else match Applied(c, args[0], args[1])
      case None => None
      case Some(d) => Accepted(d, args[2..])
  }

  method ParseArguments(args: seq<string>) returns (command: Option<Command>)
    ensures command == Accepted(EMPTY, args)
  {
    var preopens: seq<Preopen>, socket, wasm, memory := [], None, None, None;
    var grants := new Grants();
    var i := 0;
    assert args[0..] == args;
    while i < |args|
      invariant i <= |args| && fresh(grants)
      invariant Accepted(Command(preopens, grants.View(), socket, wasm, memory), args[i..]) == Accepted(EMPTY, args)
    {
      var option := args[i];
      i := i + 1;
      if i == |args| { return None; }
      assert args[i - 1..][0] == option && args[i - 1..][1] == args[i] && args[i - 1..][2..] == args[i + 1..];
      if option == "--preopen" {
        var parsed := ParsePreopen(args[i]);
        if parsed.None? { return None; }
        preopens := preopens + [parsed.value];
      } else if option == "--grant" {
        var ok := grants.Add(args[i]);
        if !ok { return None; }
      } else if option == "--module" {
        wasm := Some(args[i]);
      } else if option == "--max-memory-mib" {
        if !IsMemory(args[i]) { return None; }
        memory := Some(args[i]);
      } else if option == "--ipc-socket" {
        socket := Some(args[i]);
      } else {
        return None;
      }
      i := i + 1;
    }
    assert args[i..] == [];
    return Some(Command(preopens, grants.View(), socket, wasm, memory));
  }

  // ----- From the manifest to the runtime -----

  function Preopened(d: SG.GrantedDir): Preopen { Preopen(d.host, d.guest, d.access) }

  function Preopens(dirs: seq<SG.GrantedDir>): seq<Preopen> {
    if dirs == [] then [] else [Preopened(dirs[0])] + Preopens(dirs[1..])
  }

  function Scopes(imports: seq<Capability>): seq<FetchScope> {
    if imports == [] then []
    else (if imports[0].Fetch? then [imports[0].scope] else []) + Scopes(imports[1..])
  }

  /** The imports with all of `imports` granted. */
  function Granted(g: Imports, imports: seq<Capability>): Imports {
    Imports(g.fetch + Scopes(imports), g.notifications || Notifications in imports,
            g.clipboardRead || ClipboardRead in imports, g.clipboardWrite || ClipboardWrite in imports)
  }

  predicate Sound(d: SG.GrantedDir) { d.host != "" && (d.guest == SG.DATA || d.guest == SG.DOCUMENTS) }

  lemma SoundRoundTrip(d: SG.GrantedDir)
    requires Sound(d)
    ensures ParsePreopen(SG.PreopenArg(d)) == Some(Preopened(d))
  {
    PreopenRoundTrip(d);
  }

  lemma OneOption(c: Command, option: string, value: string, rest: seq<string>)
    ensures Accepted(c, [option, value] + rest) ==
              match Applied(c, option, value) case None => None case Some(d) => Accepted(d, rest)
  {
    assert ([option, value] + rest)[2..] == rest;
  }

  lemma PreopenOption(c: Command, d: SG.GrantedDir)
    requires Sound(d)
    ensures Applied(c, "--preopen", SG.PreopenArg(d)) == Some(c.(preopens := c.preopens + [Preopened(d)]))
  {
    SoundRoundTrip(d);
    hide ParsePreopen, SG.PreopenArg;
  }

  lemma {:induction false} PreopensAccepted(c: Command, dirs: seq<SG.GrantedDir>, rest: seq<string>)
    requires forall d :: d in dirs ==> Sound(d)
    ensures Accepted(c, SG.PreopenArgs(dirs) + rest) == Accepted(c.(preopens := c.preopens + Preopens(dirs)), rest)
    decreases |dirs|
  {
    hide Sound, SG.PreopenArg, Applied, Accepted, Preopened;
    var args := SG.PreopenArgs(dirs) + rest;
    if dirs == [] {
      assert args == rest && c.preopens + [] == c.preopens;
    } else {
      var next := c.(preopens := c.preopens + [Preopened(dirs[0])]);
      assert args == ["--preopen", SG.PreopenArg(dirs[0])] + (SG.PreopenArgs(dirs[1..]) + rest);
      OneOption(c, "--preopen", SG.PreopenArg(dirs[0]), SG.PreopenArgs(dirs[1..]) + rest);
      PreopenOption(c, dirs[0]);
      PreopensAccepted(next, dirs[1..], rest);
      assert next.preopens + Preopens(dirs[1..]) == c.preopens + Preopens(dirs);
    }
  }

  predicate Importable(c: Capability) { Wellformed(c) && !SG.NeedsDir(c) && !SG.Gpu(c) }

  lemma ImportAdded(g: Imports, c: Capability)
    requires Importable(c)
    ensures Added(g, Display(c)) == Some(Granted(g, [c]))
  {
    ParseDisplay(c);
    hide Parse, Display;
    assert [c][1..] == [] && Scopes([]) == [];
    assert Scopes([c]) == if c.Fetch? then [c.scope] else [];
    assert g.fetch + [] == g.fetch;
  }

  lemma GrantedTwice(g: Imports, c: Capability, rest: seq<Capability>)
    ensures Granted(Granted(g, [c]), rest) == Granted(g, [c] + rest)
  {
    assert [c][1..] == [] && ([c] + rest)[1..] == rest;
    assert g.fetch + Scopes([c]) + Scopes(rest) == g.fetch + (Scopes([c]) + Scopes(rest));
  }

  lemma {:induction false} GrantsAccepted(c: Command, imports: seq<Capability>)
    requires forall i :: i in imports ==> Importable(i)
    ensures Accepted(c, SG.GrantArgs(imports)) == Some(c.(imports := Granted(c.imports, imports)))
    decreases |imports|
  {
    hide Importable, Added, Display, Granted, ParsePreopen;
    var args := SG.GrantArgs(imports);
    if imports == [] {
      NoneGranted(c.imports);
    } else {
      ImportAdded(c.imports, imports[0]);
      var next := c.(imports := Granted(c.imports, [imports[0]]));
      assert args[0] == "--grant" && args[1] == Display(imports[0]) && args[2..] == SG.GrantArgs(imports[1..]);
      GrantsAccepted(next, imports[1..]);
      GrantedTwice(c.imports, imports[0], imports[1..]);
      assert [imports[0]] + imports[1..] == imports;
    }
  }

  lemma NoneGranted(g: Imports)
    ensures Granted(g, []) == g
  {
    assert g.fetch + [] == g.fetch;
  }

  /** The runtime accepts every argument it is given, and holds all of it. */
  lemma CommandAccepted(g: SG.Grants, socket: string, wasm: string)
    requires (forall d :: d in g.dirs ==> Sound(d)) && (forall c :: c in g.imports ==> Importable(c))
    ensures Accepted(EMPTY, SG.Arguments(g, socket, wasm))
         == Some(Command(Preopens(g.dirs), Granted(NO_IMPORTS, g.imports), Some(socket), Some(wasm), None))
  {
    hide Sound, Importable, Granted, Preopens, SG.PreopenArgs, SG.GrantArgs, Added, ParsePreopen;
    var args := SG.Arguments(g, socket, wasm);
    var rest := SG.PreopenArgs(g.dirs) + SG.GrantArgs(g.imports);
    assert args[0] == "--ipc-socket" && args[1] == socket && args[2..][0] == "--module" && args[2..][1] == wasm;
    assert args[2..][2..] == rest;
    var c := EMPTY.(socket := Some(socket));
    var d := c.(wasm := Some(wasm));
    assert Accepted(EMPTY, args) == Accepted(c, args[2..]) == Accepted(d, rest);
    PreopensAccepted(d, g.dirs, SG.GrantArgs(g.imports));
    GrantsAccepted(d.(preopens := d.preopens + Preopens(g.dirs)), g.imports);
    assert [] + Preopens(g.dirs) == Preopens(g.dirs);
  }

  predicate Absolute(path: SG.HostPath) { path.Some? ==> path.value != "" && path.value[0] == '/' }

  /** `p` is the directory declared as `guest`, read-write exactly when some
      declaration is. */
  predicate DeclaredDir(p: Preopen, guest: string, host: SG.HostPath, read: bool, write: bool) {
    p.guest == guest && Some(p.host) == host && (read || write) && (p.access == ReadWrite <==> write)
  }

  /** The command holds exactly what the capabilities declare. */
  ghost predicate HoldsExactly(command: Command, caps: seq<Capability>, dirs: SG.HostDirs) {
    && (forall p :: p in command.preopens <==>
          || DeclaredDir(p, SG.DATA, dirs.appData, AppData(Read) in caps, AppData(ReadWrite) in caps)
          || DeclaredDir(p, SG.DOCUMENTS, SG.DocumentsOf(dirs), Documents(Read) in caps, Documents(ReadWrite) in caps))
    && (forall i, j :: 0 <= i < j < |command.preopens| ==> command.preopens[i].guest != command.preopens[j].guest)
    && (forall scope :: scope in command.imports.fetch <==> Fetch(scope) in caps)
    && (command.imports.notifications <==> Notifications in caps)
    && (command.imports.clipboardRead <==> ClipboardRead in caps)
    && (command.imports.clipboardWrite <==> ClipboardWrite in caps)
  }

  lemma {:induction false} ScopesExactly(imports: seq<Capability>)
    ensures forall scope :: scope in Scopes(imports) <==> Fetch(scope) in imports
  {
    if imports != [] {
      ScopesExactly(imports[1..]);
      assert imports == [imports[0]] + imports[1..];
    }
  }

  lemma {:induction false} PreopensExactly(dirs: seq<SG.GrantedDir>)
    ensures |Preopens(dirs)| == |dirs| && forall i :: 0 <= i < |dirs| ==> Preopens(dirs)[i] == Preopened(dirs[i])
    ensures forall p :: p in Preopens(dirs) <==> SG.GrantedDir(p.host, p.guest, p.access) in dirs
  {
    if dirs != [] {
      PreopensExactly(dirs[1..]);
      assert dirs == [dirs[0]] + dirs[1..];
      forall p ensures p in Preopens(dirs) <==> SG.GrantedDir(p.host, p.guest, p.access) in dirs {
        assert p == Preopened(dirs[0]) <==> SG.GrantedDir(p.host, p.guest, p.access) == dirs[0];
      }
    }
  }

  lemma DirInGrants(dirs: seq<SG.GrantedDir>, guest: string, host: SG.HostPath, read: bool, write: bool, p: Preopen)
    requires SG.Guests(dirs) && SG.DirExactly(dirs, guest, host, read, write) && p.guest == guest
    ensures SG.GrantedDir(p.host, p.guest, p.access) in dirs <==> DeclaredDir(p, guest, host, read, write)
  {
    var i := SG.DirAt(dirs, guest);
    var d := SG.GrantedDir(p.host, p.guest, p.access);
    if d in dirs {
      var j :| 0 <= j < |dirs| && dirs[j] == d;
      assert i <= j && dirs[i].guest == guest;
    }
    if DeclaredDir(p, guest, host, read, write) { assert dirs[i] == d; }
  }

  /** Whatever the manifest declares and the host can satisfy, weft-runtime
      accepts the command line built from it, and its preopens and imports
      are exactly the declared ones. */
  lemma RuntimeHoldsWhatIsDeclared(declared: seq<string>, g: SG.Grants, dirs: SG.HostDirs, socket: string, wasm: string)
    requires forall t :: t in declared ==> SG.Supported(t)
    requires SG.Exactly(g, SG.Parsed(declared), dirs)
    requires Absolute(dirs.appData) && Absolute(SG.DocumentsOf(dirs))
    ensures var command := Accepted(EMPTY, SG.Arguments(g, socket, wasm));
      && command.Some?
      && HoldsExactly(command.value, SG.Parsed(declared), dirs)
      && command.value.socket == Some(socket) && command.value.wasm == Some(wasm)
      && forall host :: ReachesExactly(command.value.imports.fetch, SG.Parsed(declared), host)
  {
    var caps := SG.Parsed(declared);
    SG.ParsedDirs(declared, caps);
    forall c | c in g.imports ensures Importable(c) {
      var t :| t in declared && Parse(t) == Some(c);
      DisplayParse(t);
      assert SG.Supported(t);
    }
    SoundDirs(g, caps, dirs);
    CommandAccepted(g, socket, wasm);
    HeldExactly(g, caps, dirs, socket, wasm);
    ReachIsDeclared(Accepted(EMPTY, SG.Arguments(g, socket, wasm)).value, caps, dirs);
  }

  lemma SoundDirs(g: SG.Grants, caps: seq<Capability>, dirs: SG.HostDirs)
    requires SG.Exactly(g, caps, dirs) && Absolute(dirs.appData) && Absolute(SG.DocumentsOf(dirs))
    ensures forall d :: d in g.dirs ==> Sound(d)
  {
    forall d | d in g.dirs ensures Sound(d) {
      var j :| 0 <= j < |g.dirs| && g.dirs[j] == d;
      var i := SG.DirAt(g.dirs, d.guest);
      assert i <= j && g.dirs[i].guest == d.guest;
    }
  }

  lemma HeldExactly(g: SG.Grants, caps: seq<Capability>, dirs: SG.HostDirs, socket: string, wasm: string)
    requires SG.Exactly(g, caps, dirs)
    ensures HoldsExactly(Command(Preopens(g.dirs), Granted(NO_IMPORTS, g.imports), Some(socket), Some(wasm), None), caps, dirs)
  {
    hide Preopens, Scopes, SG.DirExactly, SG.Guests;
    PreopensExactly(g.dirs);
    ScopesExactly(g.imports);
    GuestsApart(g.dirs);
    forall p: Preopen
      ensures p.guest == SG.DATA ==> (p in Preopens(g.dirs) <==>
                DeclaredDir(p, SG.DATA, dirs.appData, AppData(Read) in caps, AppData(ReadWrite) in caps))
      ensures p.guest == SG.DOCUMENTS ==> (p in Preopens(g.dirs) <==>
                DeclaredDir(p, SG.DOCUMENTS, SG.DocumentsOf(dirs), Documents(Read) in caps, Documents(ReadWrite) in caps))
      ensures p in Preopens(g.dirs) ==> p.guest == SG.DATA || p.guest == SG.DOCUMENTS
    {
      GuestsOnly(g.dirs, SG.GrantedDir(p.host, p.guest, p.access));
      if p.guest == SG.DATA {
        DirInGrants(g.dirs, SG.DATA, dirs.appData, AppData(Read) in caps, AppData(ReadWrite) in caps, p);
      }
      if p.guest == SG.DOCUMENTS {
        DirInGrants(g.dirs, SG.DOCUMENTS, SG.DocumentsOf(dirs), Documents(Read) in caps, Documents(ReadWrite) in caps, p);
      }
    }
    assert SG.DATA[1] == 'd' && SG.DOCUMENTS[1] == 'x';
    forall scope ensures scope in Scopes(g.imports) <==> Fetch(scope) in caps {
      assert Fetch(scope) in g.imports <==> Fetch(scope) in caps;
    }
    assert [] + Scopes(g.imports) == Scopes(g.imports);
  }

  lemma GuestsApart(dirs: seq<SG.GrantedDir>)
    requires SG.Guests(dirs)
    ensures forall i, j :: 0 <= i < j < |dirs| ==> dirs[i].guest != dirs[j].guest
  {
  }

  lemma GuestsOnly(dirs: seq<SG.GrantedDir>, d: SG.GrantedDir)
    requires SG.Guests(dirs)
    ensures d in dirs ==> d.guest == SG.DATA || d.guest == SG.DOCUMENTS
  {
  }

  /** The order of declarations and repeated ones change nothing: not whether
      the session starts, nor what its runtime holds. */
  lemma OrderAndRepeatsDoNotMatter(a: seq<string>, b: seq<string>, hostDirs: SG.Result<SG.HostDirs>, prepared: SG.Result<()>)
    requires forall t :: t in a <==> t in b
    ensures SG.Derivable(a, hostDirs, prepared) <==> SG.Derivable(b, hostDirs, prepared)
    ensures SG.UsedDirs(a, hostDirs) == SG.UsedDirs(b, hostDirs)
    ensures (forall t :: t in a ==> SG.Supported(t)) ==>
              forall command, dirs :: HoldsExactly(command, SG.Parsed(a), dirs) <==> HoldsExactly(command, SG.Parsed(b), dirs)
  {
    hide Parse;
    if forall t :: t in a ==> SG.Supported(t) {
      SG.ParsedDirs(a, SG.Parsed(a));
      SG.ParsedDirs(b, SG.Parsed(b));
      SameCapabilities(SG.Parsed(a), SG.Parsed(b));
    }
  }

  lemma SameCapabilities(a: seq<Capability>, b: seq<Capability>)
    requires forall c :: c in a <==> c in b
    ensures forall command, dirs :: HoldsExactly(command, a, dirs) <==> HoldsExactly(command, b, dirs)
  {
  }

  /** A request reaches a host exactly when a declaration covers it, and an
      address that is not public only when a declaration names it. */
  predicate ReachesExactly(fetch: seq<FetchScope>, caps: seq<Capability>, host: string) {
    var reach := FetchHost(fetch, host);
    && (reach.Some? <==> Fetch(AnyHost) in caps || Fetch(Host(host)) in caps)
    && (reach == Some(Declared) <==> IsIpv4(Split(host, '.')) && Fetch(Host(host)) in caps)
  }

  lemma ReachIsDeclared(command: Command, caps: seq<Capability>, dirs: SG.HostDirs)
    requires HoldsExactly(command, caps, dirs)
    ensures forall host :: ReachesExactly(command.imports.fetch, caps, host)
  {
  }

  lemma PreopenArgsGrow(dirs: seq<SG.GrantedDir>, d: SG.GrantedDir)
    ensures SG.PreopenArgs(dirs + [d]) == SG.PreopenArgs(dirs) + ["--preopen", SG.PreopenArg(d)]
  {
    if dirs == [] {
      assert [d][1..] == [] && dirs + [d] == [d];
    } else {
      assert (dirs + [d])[1..] == dirs[1..] + [d];
      PreopenArgsGrow(dirs[1..], d);
    }
  }

  lemma GrantArgsGrow(imports: seq<Capability>, c: Capability)
    ensures SG.GrantArgs(imports + [c]) == SG.GrantArgs(imports) + ["--grant", Display(c)]
  {
    hide Display;
    if imports == [] {
      assert [c][1..] == [] && imports + [c] == [c];
    } else {
      assert (imports + [c])[1..] == imports[1..] + [c];
      GrantArgsGrow(imports[1..], c);
    }
  }

  /** The command line of a session's runtime. */
  method BuildArguments(g: SG.Grants, socket: string, wasm: string) returns (args: seq<string>)
    ensures args == SG.Arguments(g, socket, wasm)
  {
    hide Display, SG.PreopenArg;
    args := ["--ipc-socket", socket, "--module", wasm];
    ghost var fixed := args;
    for i := 0 to |g.dirs|
      invariant args == fixed + SG.PreopenArgs(g.dirs[..i])
    {
      PreopenArgsGrow(g.dirs[..i], g.dirs[i]);
      assert g.dirs[..i + 1] == g.dirs[..i] + [g.dirs[i]];
      args := args + ["--preopen", SG.PreopenArg(g.dirs[i])];
    }
    assert g.dirs[..|g.dirs|] == g.dirs;
    for i := 0 to |g.imports|
      invariant args == fixed + SG.PreopenArgs(g.dirs) + SG.GrantArgs(g.imports[..i])
    {
      GrantArgsGrow(g.imports[..i], g.imports[i]);
      assert g.imports[..i + 1] == g.imports[..i] + [g.imports[i]];
      args := args + ["--grant", Display(g.imports[i])];
    }
    assert g.imports[..|g.imports|] == g.imports;
  }

  /** From the manifest to the runtime: weft-appd derives the grants and builds
      the command line, and weft-runtime reads it. The session is refused
      exactly when it is not derivable, and else the runtime holds exactly
      what the manifest declares. */
  method StartRuntime(declared: seq<string>, hostDirs: SG.Result<SG.HostDirs>, prepared: SG.Result<()>,
                      socket: string, wasm: string)
    returns (r: SG.Result<Command>)
    requires hostDirs.Ok? ==> Absolute(hostDirs.value.appData) && Absolute(SG.DocumentsOf(hostDirs.value))
    ensures r.Ok? <==> SG.Derivable(declared, hostDirs, prepared)
    ensures r.Ok? ==>
              && HoldsExactly(r.value, SG.Parsed(declared), SG.UsedDirs(declared, hostDirs))
              && r.value.socket == Some(socket) && r.value.wasm == Some(wasm)
              && forall host :: ReachesExactly(r.value.imports.fetch, SG.Parsed(declared), host)
  {
    SG.DerivableOnlySupported(declared, hostDirs, prepared);
    hide SG.Derivable, SG.Exactly, SG.Supported, HoldsExactly, ReachesExactly, Accepted, SG.Arguments;
    var derived := SG.Derive(declared, hostDirs, prepared);
    if derived.Err? { return SG.Err(derived.code); }
    var args := BuildArguments(derived.value, socket, wasm);
    RuntimeHoldsWhatIsDeclared(declared, derived.value, SG.UsedDirs(declared, hostDirs), socket, wasm);
    var command := ParseArguments(args);
    return SG.Ok(command.value);
  }
}
