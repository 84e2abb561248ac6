/** The grants weft-appd derives from a manifest's capabilities, and the
    command line it passes them on. */
module SessionGrants {
  import opened Options
  import opened Capabilities

  /** A host path; None when it is not UTF-8. */
  type HostPath = Option<string>

  datatype HostDirs = HostDirs(appData: HostPath, documents: Option<HostPath>)

  datatype Result<T> = Ok(value: T) | Err(code: nat)

  datatype GrantedDir = GrantedDir(host: string, guest: string, access: Access)

  datatype Grants = Grants(dirs: seq<GrantedDir>, imports: seq<Capability>)

  const DATA := "/data"
  const DOCUMENTS := "/xdg/documents"

  predicate Gpu(c: Capability) { c.GpuCompute? || c.GpuRender? }

  predicate Supported(text: string) { Parse(text).Some? && !Gpu(Parse(text).value) }

  predicate NeedsDir(c: Capability) { c.AppData? || c.Documents? }

  /** `::` somewhere in the text. */
  predicate HasColons(s: string) { exists i :: 0 <= i < |s| - 1 && s[i] == ':' && s[i + 1] == ':' }

  predicate Usable(path: HostPath) { path.Some? && !HasColons(path.value) }

  /** Of the vocabulary, the host supports all but computing and rendering. */
  lemma SupportedExactly(text: string)
    ensures Supported(text) <==> Parse(text).Some? && text != "hw:gpu:compute" && text != "hw:gpu:render"
  {
    ImportTexts();
    if Parse(text).Some? { DisplayParse(text); }
    hide Parse;
  }

  function Parsed(declared: seq<string>): seq<Capability>
    requires forall t :: t in declared ==> Supported(t)
  {
    seq(|declared|, i requires 0 <= i < |declared| => assert Supported(declared[i]); Parse(declared[i]).value)
  }

  /** Parses the declared capabilities: exactly those this host supports pass. */
  method Validate(declared: seq<string>) returns (r: Result<seq<Capability>>)
    ensures r.Ok? <==> forall t :: t in declared ==> Supported(t)
    ensures r.Ok? ==> r.value == Parsed(declared)
    ensures r.Err? ==> r.code == 403
  {
    var capabilities := [];
    for i := 0 to |declared|
      invariant forall j :: 0 <= j < i ==> Supported(declared[j])
      invariant |capabilities| == i && forall j :: 0 <= j < i ==> Some(capabilities[j]) == Parse(declared[j])
    {
      var parsed := Parse(declared[i]);
      assert declared[i] in declared;
      if parsed.None? { return Err(403); }
      if Gpu(parsed.value) { return Err(403); }
      capabilities := capabilities + [parsed.value];
    }
    return Ok(capabilities);
  }

  /** The index of the directory granted as `guest`, or the number of directories. */
  function DirAt(dirs: seq<GrantedDir>, guest: string): (i: nat)
    ensures i <= |dirs|
    ensures i < |dirs| ==> dirs[i].guest == guest
    ensures forall j :: 0 <= j < i ==> dirs[j].guest != guest
  {
    if dirs == [] || dirs[0].guest == guest then 0 else 1 + DirAt(dirs[1..], guest)
  }

  /** One entry a guest path, read-write as soon as one grant of it is. */
  function WithDir(dirs: seq<GrantedDir>, host: string, guest: string, access: Access): seq<GrantedDir> {
    var i := DirAt(dirs, guest);
    if i == |dirs| then dirs + [GrantedDir(host, guest, access)]
    else if access.ReadWrite? then dirs[i := dirs[i].(access := ReadWrite)]
    else dirs
  }

  /** Adds a directory grant. */
  function DirGranted(g: Grants, host: HostPath, guest: string, access: Access): Result<Grants> {
    if !Usable(host) then Err(403) else Ok(g.(dirs := WithDir(g.dirs, host.value, guest, access)))
  }

  function Granted(g: Grants, c: Capability, dirs: HostDirs): Result<Grants> {
    if c.AppData? then DirGranted(g, dirs.appData, DATA, c.access)
    else if c.Documents? then
      if dirs.documents.None? then Err(403) else DirGranted(g, dirs.documents.value, DOCUMENTS, c.access)
    else Ok(if c in g.imports then g else g.(imports := g.imports + [c]))
  }

  /** A directory is granted for `guest` exactly when one is declared, to its
      host path, read-write exactly when some declaration is. */
  predicate DirExactly(dirs: seq<GrantedDir>, guest: string, host: HostPath, read: bool, write: bool) {
    var i := DirAt(dirs, guest);
    && (i < |dirs| <==> read || write)
    && (i < |dirs| ==> Some(dirs[i].host) == host && (dirs[i].access == ReadWrite <==> write))
  }

  function DocumentsOf(dirs: HostDirs): HostPath { if dirs.documents.Some? then dirs.documents.value else None }

  /** The grants are those of the capabilities. */
  ghost predicate Exactly(g: Grants, caps: seq<Capability>, dirs: HostDirs) {
    && (forall c :: c in g.imports <==> c in caps && !NeedsDir(c))
    && (forall i, j :: 0 <= i < j < |g.imports| ==> g.imports[i] != g.imports[j])
    && Guests(g.dirs)
    && DirExactly(g.dirs, DATA, dirs.appData, AppData(Read) in caps, AppData(ReadWrite) in caps)
    && DirExactly(g.dirs, DOCUMENTS, DocumentsOf(dirs), Documents(Read) in caps, Documents(ReadWrite) in caps)
  }

  /** What a capability needs of the host is there. */
  predicate Satisfiable(c: Capability, dirs: HostDirs) {
    && (c.AppData? ==> Usable(dirs.appData))
    && (c.Documents? ==> dirs.documents.Some? && Usable(dirs.documents.value))
  }

  predicate Guests(dirs: seq<GrantedDir>) {
    && (forall i, j :: 0 <= i < j < |dirs| ==> dirs[i].guest != dirs[j].guest)
    && (forall i :: 0 <= i < |dirs| ==> dirs[i].guest == DATA || dirs[i].guest == DOCUMENTS)
  }

  /** The index is the one place the guest is at. */
  lemma DirAtIs(dirs: seq<GrantedDir>, guest: string, i: nat)
    requires i <= |dirs| && (i < |dirs| ==> dirs[i].guest == guest)
    requires forall j :: 0 <= j < i ==> dirs[j].guest != guest
    ensures DirAt(dirs, guest) == i
  {
  }

  lemma WithDirKeeps(dirs: seq<GrantedDir>, host: string, guest: string, access: Access, read: bool, write: bool)
    requires Guests(dirs) && (guest == DATA || guest == DOCUMENTS) && DirExactly(dirs, guest, Some(host), read, write)
    ensures var more := WithDir(dirs, host, guest, access);
      Guests(more) && DirExactly(more, guest, Some(host), read || access.Read?, write || access.ReadWrite?)
  {
    var i := DirAt(dirs, guest);
    var more := WithDir(dirs, host, guest, access);
    assert forall j :: 0 <= j < |dirs| ==> more[j].guest == dirs[j].guest;
    DirAtIs(more, guest, i);
  }

  lemma WithDirAside(dirs: seq<GrantedDir>, host: string, guest: string, access: Access,
                     other: string, otherHost: HostPath, read: bool, write: bool)
    requires other != guest && DirExactly(dirs, other, otherHost, read, write)
    ensures DirExactly(WithDir(dirs, host, guest, access), other, otherHost, read, write)
  {
    var i := DirAt(dirs, other);
    var more := WithDir(dirs, host, guest, access);
    assert forall j :: 0 <= j < |dirs| ==> more[j].guest == dirs[j].guest;
    DirAtIs(more, other, if i < |dirs| then i else |more|);
  }

  /** One more capability, and the grants are still those of the capabilities. */
  lemma GrantedExactly(g: Grants, caps: seq<Capability>, c: Capability, dirs: HostDirs)
    requires Exactly(g, caps, dirs)
    ensures Granted(g, c, dirs).Ok? <==> Satisfiable(c, dirs)
    ensures Granted(g, c, dirs).Ok? ==> Exactly(Granted(g, c, dirs).value, caps + [c], dirs)
    ensures Granted(g, c, dirs).Err? ==> Granted(g, c, dirs).code == 403
  {
    hide DirExactly, Guests, WithDir, DirAt;
    assert DATA[0] == '/' && DATA[1] == 'd' && DOCUMENTS[1] == 'x';
    if c.AppData? && Satisfiable(c, dirs) {
      WithDirKeeps(g.dirs, dirs.appData.value, DATA, c.access, AppData(Read) in caps, AppData(ReadWrite) in caps);
      WithDirAside(g.dirs, dirs.appData.value, DATA, c.access, DOCUMENTS, DocumentsOf(dirs),
                   Documents(Read) in caps, Documents(ReadWrite) in caps);
    } else if c.Documents? && Satisfiable(c, dirs) {
      WithDirKeeps(g.dirs, dirs.documents.value.value, DOCUMENTS, c.access,
                   Documents(Read) in caps, Documents(ReadWrite) in caps);
      WithDirAside(g.dirs, dirs.documents.value.value, DOCUMENTS, c.access, DATA, dirs.appData,
                   AppData(Read) in caps, AppData(ReadWrite) in caps);
    }
  }

  /** A session's grants, unless a capability is unsupported, lacks its
      directory, or needs app data that could not be prepared. */
  method Derive(declared: seq<string>, hostDirs: Result<HostDirs>, prepared: Result<()>) returns (r: Result<Grants>)
    ensures r.Ok? <==> Derivable(declared, hostDirs, prepared)
    ensures (exists t :: t in declared && !Supported(t)) ==> r == Err(403)
    ensures r.Ok? ==> Exactly(r.value, Parsed(declared), UsedDirs(declared, hostDirs))
  {
    hide Exactly, Satisfiable, Supported, Parse, Derivable, NeedsDir, UsedDirs;
    var validated := Validate(declared);
    DerivableOnlySupported(declared, hostDirs, prepared);
    if validated.Err? { return Err(validated.code); }
    var capabilities := validated.value;
    DerivableParts(declared, capabilities, hostDirs, prepared);
    var dirs := HostDirs(None, None);
    if exists c :: c in capabilities && NeedsDir(c) {
      if hostDirs.Err? { return Err(hostDirs.code); }
      dirs := hostDirs.value;
    }
    r := GrantAll(capabilities, dirs);
    if r.Ok? { DataGranted(r.value, capabilities, dirs); }
    if r.Ok? && DirAt(r.value.dirs, DATA) < |r.value.dirs| && prepared.Err? { return Err(prepared.code); }
  }

  method GrantAll(capabilities: seq<Capability>, dirs: HostDirs) returns (r: Result<Grants>)
    ensures r.Ok? <==> forall c :: c in capabilities ==> Satisfiable(c, dirs)
    ensures r.Ok? ==> Exactly(r.value, capabilities, dirs)
  {
    hide Satisfiable, Granted, Exactly;
    var grants := Grants([], []);
    NothingGranted(dirs);
    for i := 0 to |capabilities|
      invariant Exactly(grants, capabilities[..i], dirs)
      invariant forall j :: 0 <= j < i ==> Satisfiable(capabilities[j], dirs)
    {
      GrantedExactly(grants, capabilities[..i], capabilities[i], dirs);
      assert capabilities[..i + 1] == capabilities[..i] + [capabilities[i]];
      assert capabilities[i] in capabilities;
      var granted := Granted(grants, capabilities[i], dirs);
      if granted.Err? { return Err(granted.code); }
      grants := granted.value;
    }
    assert capabilities[..|capabilities|] == capabilities;
    return Ok(grants);
  }

  lemma NothingGranted(dirs: HostDirs)
    ensures Exactly(Grants([], []), [], dirs)
  {
  }

  /** The host's directories, when a capability needs one. */
  function UsedDirs(declared: seq<string>, hostDirs: Result<HostDirs>): HostDirs {
    if hostDirs.Ok? && exists t :: t in declared && Parse(t).Some? && NeedsDir(Parse(t).value)
    then hostDirs.value else HostDirs(None, None)
  }

  ghost predicate Derivable(declared: seq<string>, hostDirs: Result<HostDirs>, prepared: Result<()>) {
    && (forall t :: t in declared ==> Supported(t))
    && (forall t :: t in declared && NeedsDir(Parse(t).value) ==>
          hostDirs.Ok? && Satisfiable(Parse(t).value, hostDirs.value)
          && (Parse(t).value.AppData? ==> prepared.Ok?))
  }

  lemma DerivableOnlySupported(declared: seq<string>, hostDirs: Result<HostDirs>, prepared: Result<()>)
    ensures Derivable(declared, hostDirs, prepared) ==> forall t :: t in declared ==> Supported(t)
  {
  }

  lemma DerivableParts(declared: seq<string>, caps: seq<Capability>, hostDirs: Result<HostDirs>, prepared: Result<()>)
    requires (forall t :: t in declared ==> Supported(t)) && caps == Parsed(declared)
    ensures UsedDirs(declared, hostDirs) ==
              if hostDirs.Ok? && exists c :: c in caps && NeedsDir(c) then hostDirs.value else HostDirs(None, None)
    ensures Derivable(declared, hostDirs, prepared) <==>
              && ((exists c :: c in caps && NeedsDir(c)) ==> hostDirs.Ok?)
              && (forall c :: c in caps ==> Satisfiable(c, UsedDirs(declared, hostDirs)))
              && (AppData(Read) in caps || AppData(ReadWrite) in caps ==> prepared.Ok?)
  {
    hide Parse, Gpu;
    ParsedDirs(declared, caps);
    forall c | c in caps && c.AppData? ensures c == AppData(Read) || c == AppData(ReadWrite) {
      if c.access.Read? { assert c == AppData(Read); } else { assert c == AppData(ReadWrite); }
    }
  }

  lemma DataGranted(g: Grants, caps: seq<Capability>, dirs: HostDirs)
    requires Exactly(g, caps, dirs)
    ensures DirAt(g.dirs, DATA) < |g.dirs| <==> AppData(Read) in caps || AppData(ReadWrite) in caps
  {
  }

  lemma ParsedDirs(declared: seq<string>, caps: seq<Capability>)
    requires forall t :: t in declared ==> Supported(t)
    requires caps == Parsed(declared)
    ensures forall c :: c in caps <==> exists t :: t in declared && Parse(t) == Some(c)
  {
    forall c | c in caps ensures exists t :: t in declared && Parse(t) == Some(c) {
      var i :| 0 <= i < |caps| && caps[i] == c;
      assert declared[i] in declared;
    }
    forall c, t | t in declared && Parse(t) == Some(c) ensures c in caps {
      var i :| 0 <= i < |declared| && declared[i] == t;
      assert caps[i] == c;
    }
  }

  // ----- The command line -----

  function PreopenArg(d: GrantedDir): string {
    d.host + "::" + d.guest + "::" + if d.access.Read? then "ro" else "rw"
  }

  function PreopenArgs(dirs: seq<GrantedDir>): seq<string> {
    if dirs == [] then [] else ["--preopen", PreopenArg(dirs[0])] + PreopenArgs(dirs[1..])
  }

  function GrantArgs(imports: seq<Capability>): seq<string> {
    if imports == [] then [] else ["--grant", Display(imports[0])] + GrantArgs(imports[1..])
  }

  /** The arguments of weft-runtime, after the app ID and the session ID. */
  function Arguments(g: Grants, socket: string, wasm: string): seq<string> {
    ["--ipc-socket", socket, "--module", wasm] + PreopenArgs(g.dirs) + GrantArgs(g.imports)
  }
}
