/** The inventory a package signature covers: every file and its hash. */
module Inventory {
  import opened Options
  import opened Streams
  import Names

  /** A SHA-256 hash, of a file's content. */
  type Hash = seq<Byte>

  datatype Name = Text(text: string) | NotUtf8

  /** What a directory lists: the order is whatever the file system gives. */
  datatype Listed = Listed(name: Name, node: Node)

  datatype Node = File(hash: Hash) | Folder(listing: seq<Listed>) | SymLink | Special

  /** One inventory entry. */
  datatype Entry = Entry(path: string, hash: Hash)

  datatype Problem = NonUtf8 | ControlCharacter | Link | NotAFile

  datatype Result<T> = Ok(value: T) | Err(problem: Problem)

  const SIGNATURE_FILE := "signature.sig"

  /** Unicode's control characters. */
  predicate IsControl(c: char) { c < ' ' || '\U{7F}' <= c <= '\U{9F}' }

  predicate HasControl(s: string) { exists i :: 0 <= i < |s| && IsControl(s[i]) }

  /** The path of `name` in the directory at `prefix` of the package. */
  function Relative(prefix: string, name: string): string {
    if prefix == "" then name else prefix + "/" + name
  }

  /** The files of a listing, in its order, or the first problem met. */
  function Files(prefix: string, listing: seq<Listed>): Result<seq<Entry>>
    decreases listing
  {
    if listing == [] then Ok([])
    else
      match FilesOf(prefix, listing[0])
      case Err(problem) => Err(problem)
      case Ok(first) =>
        Added(first, Files(prefix, listing[1..]))
  }

  function FilesOf(prefix: string, item: Listed): Result<seq<Entry>>
    decreases item
  {
    if item.name.NotUtf8? then Err(NonUtf8)
    else
      var relative := Relative(prefix, item.name.text);
      if HasControl(relative) then Err(ControlCharacter)
      else match item.node
        case SymLink => Err(Link)
        case Folder(listing) => Files(relative, listing)
        case Special => Err(NotAFile)
        case File(hash) => Ok(if relative == SIGNATURE_FILE then [] else [Entry(relative, hash)])
  }

  /** What is found added to what there is. */
  function Added(entries: seq<Entry>, found: Result<seq<Entry>>): Result<seq<Entry>> {
    match found case Ok(files) => Ok(entries + files) case Err(problem) => Err(problem)
  }

  /** Reads a directory into `entries`. */
  method Collect(prefix: string, listing: seq<Listed>, entries: seq<Entry>) returns (collected: Result<seq<Entry>>)
    ensures collected == Added(entries, Files(prefix, listing))
    decreases listing
  {
    collected := Ok(entries);
    var i := 0;
    assert listing[0..] == listing;
    while i < |listing|
      invariant i <= |listing| && collected.Ok?
      invariant Added(entries, Files(prefix, listing)) == Added(collected.value, Files(prefix, listing[i..]))
    {
      ghost var left, before := listing[i..], collected.value;
      assert left[0] == listing[i] && left[1..] == listing[i + 1..];
      collected := CollectOne(prefix, listing[i], collected.value);
      if collected.Err? { return; }
      AddedTwice(before, FilesOf(prefix, listing[i]), Files(prefix, left[1..]));
      i := i + 1;
    }
    assert listing[i..] == [] && collected.value + [] == collected.value;
  }

  lemma AddedTwice(entries: seq<Entry>, first: Result<seq<Entry>>, rest: Result<seq<Entry>>)
    requires first.Ok?
    ensures Added(Added(entries, first).value, rest) == Added(entries, Added(first.value, rest))
  {
    if rest.Ok? { assert entries + first.value + rest.value == entries + (first.value + rest.value); }
  }

  method CollectOne(prefix: string, item: Listed, entries: seq<Entry>) returns (collected: Result<seq<Entry>>)
    ensures collected == Added(entries, FilesOf(prefix, item))
    decreases item
  {
    if item.name.NotUtf8? { return Err(NonUtf8); }
    var relative := Relative(prefix, item.name.text);
    if HasControl(relative) { return Err(ControlCharacter); }
    match item.node {
      case SymLink => return Err(Link);
      case Folder(listing) => collected := Collect(relative, listing, entries);
      case Special => return Err(NotAFile);
      case File(hash) =>
        if relative == SIGNATURE_FILE {
          assert entries + [] == entries;
          return Ok(entries);
        }
        return Ok(entries + [Entry(relative, hash)]);
    }
  }

  // ----- Where a file is -----

  predicate NameOk(n: Name) { n.NotUtf8? || (n.text != "" && '/' !in n.text) }

  /** What a file system guarantees: names are not empty, hold no '/', and
      are distinct in one directory. */
  predicate WellNamed(listing: seq<Listed>)
    decreases listing
  {
    && (forall i :: 0 <= i < |listing| ==> ItemOk(listing[i]))
    && (forall i, j :: 0 <= i < j < |listing| ==> listing[i].name != listing[j].name)
  }

  predicate ItemOk(item: Listed)
    decreases item
  {
    NameOk(item.name) && (item.node.Folder? ==> WellNamed(item.node.listing))
  }

  function Named(listing: seq<Listed>, name: string): Option<Node> {
    if listing == [] then None
    else if listing[0].name == Text(name) then Some(listing[0].node)
    else Named(listing[1..], name)
  }

  /** The hash of the file at the path with these components. */
  function Find(listing: seq<Listed>, components: seq<string>): Option<Hash>
    requires components != []
    decreases |components|
  {
    match Named(listing, components[0])
    case Some(File(hash)) => if |components| == 1 then Some(hash) else None
    case Some(Folder(inner)) => if |components| == 1 then None else Find(inner, components[1..])
    case _ => None
  }

  predicate Components(ps: seq<string>) { forall p :: p in ps ==> p != "" && '/' !in p }

  function PathOf(ps: seq<string>): string { if ps == [] then "" else Names.Join(ps, '/') }

  lemma {:induction false} PathParts(ps: seq<string>)
    requires Components(ps) && ps != []
    ensures Names.Split(PathOf(ps), '/') == ps && PathOf(ps) != ""
  {
    Names.SplitJoin(ps, '/');
    assert PathOf(ps) == "" ==> ps == [""];
    assert ps[0] in ps;
  }

  lemma {:induction false} PathOneMore(ps: seq<string>, name: string)
    requires Components(ps)
    ensures PathOf(ps + [name]) == Relative(PathOf(ps), name)
  {
    if ps != [] {
      PathParts(ps);
      Names.JoinOneMore(ps, name, '/');
      assert "/" == ['/'];
    } else {
      assert ps + [name] == [name];
    }
  }

  /** The entry is the file its path leads to, below `ps`. */
  predicate Located(ps: seq<string>, listing: seq<Listed>, e: Entry) {
    var c := Names.Split(e.path, '/');
    |ps| < |c| && c[..|ps|] == ps && Find(listing, c[|ps|..]) == Some(e.hash)
  }

  /** The entries are the files of the listing, each once, but the signature. */
  ghost predicate Exactly(ps: seq<string>, listing: seq<Listed>, es: seq<Entry>) {
    && (forall i :: 0 <= i < |es| ==> Located(ps, listing, es[i]))
    && (forall i, j :: 0 <= i < j < |es| ==> es[i].path != es[j].path)
    && (forall c :: c != [] && Find(listing, c).Some? && PathOf(ps + c) != SIGNATURE_FILE ==>
          Entry(PathOf(ps + c), Find(listing, c).value) in es)
  }

  lemma {:induction false} NamedIsListed(listing: seq<Listed>, name: string)
    ensures Named(listing, name).Some? ==>
              exists i :: 0 <= i < |listing| && listing[i].name == Text(name) && listing[i].node == Named(listing, name).value
  {
    if listing != [] && listing[0].name != Text(name) {
      NamedIsListed(listing[1..], name);
      if Named(listing[1..], name).Some? {
        var i :| 0 <= i < |listing[1..]| && listing[1..][i].name == Text(name)
                 && listing[1..][i].node == Named(listing[1..], name).value;
        assert listing[i + 1].name == Text(name);
      }
    }
  }

  lemma {:induction false} OnlyItem(item: Listed, c: seq<string>)
    requires c != []
    ensures Find([item], c).Some? ==> item.name == Text(c[0])
    ensures item.name == Text(c[0]) ==> Named([item], c[0]) == Some(item.node)
  {
    assert [item][1..] == [] && Named([item][1..], c[0]) == None;
  }

  lemma {:induction false} FileLocated(ps: seq<string>, item: Listed, es: seq<Entry>)
    requires Components(ps) && ItemOk(item) && item.node.File? && FilesOf(PathOf(ps), item) == Ok(es)
    ensures Exactly(ps, [item], es)
  {
    var name := item.name.text;
    PathOneMore(ps, name);
    assert Components(ps + [name]);
    PathParts(ps + [name]);
    assert (ps + [name])[..|ps|] == ps && (ps + [name])[|ps|..] == [name];
    OnlyItem(item, [name]);
    forall c | c != [] && Find([item], c).Some? && PathOf(ps + c) != SIGNATURE_FILE
      ensures Entry(PathOf(ps + c), Find([item], c).value) in es
    {
      OnlyItem(item, c);
      assert c == [name];
    }
  }

  lemma {:induction false} LocatedBelow(ps: seq<string>, item: Listed, e: Entry)
    requires item.name.Text? && item.node.Folder?
    requires Located(ps + [item.name.text], item.node.listing, e)
    ensures Located(ps, [item], e)
  {
    var c, below := Names.Split(e.path, '/'), ps + [item.name.text];
    assert c[..|ps|] == c[..|below|][..|ps|] == ps;
    assert c[|ps|] == c[..|below|][|ps|] == item.name.text;
    assert c[|ps|..][1..] == c[|below|..];
    OnlyItem(item, c[|ps|..]);
  }

  lemma {:induction false} FolderLocated(ps: seq<string>, item: Listed, es: seq<Entry>)
    requires Components(ps) && ItemOk(item) && item.node.Folder? && FilesOf(PathOf(ps), item) == Ok(es)
    ensures Exactly(ps, [item], es)
    decreases item
  {
    var name, inner := item.name.text, item.node.listing;
    var below := ps + [name];
    PathOneMore(ps, name);
    assert Components(below);
    FilesLocated(below, inner, es);
    forall i | 0 <= i < |es| ensures Located(ps, [item], es[i]) {
      LocatedBelow(ps, item, es[i]);
    }
    forall c | c != [] && Find([item], c).Some? && PathOf(ps + c) != SIGNATURE_FILE
      ensures Entry(PathOf(ps + c), Find([item], c).value) in es
    {
      OnlyItem(item, c);
      assert c[0] == name && |c| > 1;
      assert below + c[1..] == ps + c;
    }
  }

  lemma {:induction false} FilesLocated(ps: seq<string>, listing: seq<Listed>, es: seq<Entry>)
    requires Components(ps) && WellNamed(listing) && Files(PathOf(ps), listing) == Ok(es)
    ensures Exactly(ps, listing, es)
    decreases listing
  {
    if listing != [] {
      var item, rest := listing[0], listing[1..];
      var first := FilesOf(PathOf(ps), item).value;
      var more := Files(PathOf(ps), rest).value;
      assert ItemOk(item);
      if item.node.File? { FileLocated(ps, item, first); } else { FolderLocated(ps, item, first); }
      assert forall i :: 0 <= i < |rest| ==> rest[i] == listing[i + 1];
      FilesLocated(ps, rest, more);
      Together(ps, listing, first, more);
    }
  }

  lemma {:induction false} FindFirst(listing: seq<Listed>, c: seq<string>)
    requires WellNamed(listing) && listing != [] && c != []
    ensures Find(listing[1..], c).Some? ==> Find(listing, c) == Find(listing[1..], c) && Text(c[0]) != listing[0].name
    ensures Find([listing[0]], c).Some? ==> Find(listing, c) == Find([listing[0]], c) && Text(c[0]) == listing[0].name
    ensures Find(listing, c).Some? ==> Find(listing, c) == Find([listing[0]], c) || Find(listing, c) == Find(listing[1..], c)
  {
    NamedIsListed(listing[1..], c[0]);
    OnlyItem(listing[0], c);
  }

  lemma {:induction false} Together(ps: seq<string>, listing: seq<Listed>, first: seq<Entry>, more: seq<Entry>)
    requires WellNamed(listing) && listing != []
    requires Exactly(ps, [listing[0]], first) && Exactly(ps, listing[1..], more)
    ensures Exactly(ps, listing, first + more)
  {
    var es := first + more;
    forall i | 0 <= i < |es|
      ensures Located(ps, listing, es[i])
      ensures (i < |first|) <==> Text(Names.Split(es[i].path, '/')[|ps|]) == listing[0].name
    {
      var c := Names.Split(es[i].path, '/');
      if i < |first| { assert Located(ps, [listing[0]], first[i]); } else { assert Located(ps, listing[1..], more[i - |first|]); }
      FindFirst(listing, c[|ps|..]);
    }
    forall i, j | 0 <= i < j < |es| ensures es[i].path != es[j].path {
      if j < |first| {
        assert first[i].path != first[j].path;
      } else if i >= |first| {
        assert more[i - |first|].path != more[j - |first|].path;
      }
    }
    forall c | c != [] && Find(listing, c).Some? && PathOf(ps + c) != SIGNATURE_FILE
      ensures Entry(PathOf(ps + c), Find(listing, c).value) in es
    {
      FindFirst(listing, c);
    }
  }

  // ----- The order of an inventory -----

  function Codes(s: string): seq<int> { seq(|s|, i requires 0 <= i < |s| => s[i] as int) }

  predicate Precedes(a: seq<int>, b: seq<int>) {
    b != [] && (a == [] || a[0] < b[0] || (a[0] == b[0] && Precedes(a[1..], b[1..])))
  }

  /** Entries are ordered by path, then by hash. */
  predicate Less(e: Entry, f: Entry) {
    Precedes(Codes(e.path), Codes(f.path)) || (e.path == f.path && Precedes(e.hash, f.hash))
  }

  lemma {:induction false} PrecedesTotal(a: seq<int>, b: seq<int>)
    ensures a == b || Precedes(a, b) || Precedes(b, a)
    ensures !(Precedes(a, b) && Precedes(b, a)) && !Precedes(a, a)
  {
    if a != [] { PrecedesTotal(a[1..], a[1..]); }
    if a != [] && b != [] && a[0] == b[0] {
      PrecedesTotal(a[1..], b[1..]);
      assert a == [a[0]] + a[1..] && b == [b[0]] + b[1..];
    }
  }

  lemma {:induction false} PrecedesThrough(a: seq<int>, b: seq<int>, c: seq<int>)
    requires Precedes(a, b) && Precedes(b, c)
    ensures Precedes(a, c)
  {
    if a != [] && a[0] == b[0] == c[0] { PrecedesThrough(a[1..], b[1..], c[1..]); }
  }

  lemma CodesApart(s: string, t: string)
    ensures Codes(s) == Codes(t) <==> s == t
  {
    if Codes(s) == Codes(t) {
      assert |s| == |Codes(s)| == |t|;
      forall i | 0 <= i < |s| ensures s[i] == t[i] { assert Codes(s)[i] == Codes(t)[i]; }
    }
  }

  lemma LessTotal(e: Entry, f: Entry)
    ensures e == f || Less(e, f) || Less(f, e)
    ensures !(Less(e, f) && Less(f, e)) && !Less(e, e)
  {
    CodesApart(e.path, f.path);
    PrecedesTotal(Codes(e.path), Codes(f.path));
    PrecedesTotal(e.hash, f.hash);
    PrecedesTotal(Codes(e.path), Codes(e.path));
  }

  lemma LessThrough(e: Entry, f: Entry, g: Entry)
    requires Less(e, f) && Less(f, g)
    ensures Less(e, g)
  {
    if Precedes(Codes(e.path), Codes(f.path)) {
      if Precedes(Codes(f.path), Codes(g.path)) {
        PrecedesThrough(Codes(e.path), Codes(f.path), Codes(g.path));
      }
    } else if !Precedes(Codes(f.path), Codes(g.path)) {
      PrecedesThrough(e.hash, f.hash, g.hash);
    }
  }

  function Inserted(e: Entry, es: seq<Entry>): seq<Entry> {
    if es == [] || !Less(es[0], e) then [e] + es else [es[0]] + Inserted(e, es[1..])
  }

  function Sorted(es: seq<Entry>): seq<Entry> { if es == [] then [] else Inserted(es[0], Sorted(es[1..])) }

  predicate Ordered(es: seq<Entry>) { forall i, j :: 0 <= i < j < |es| ==> Less(es[i], es[j]) }

  lemma {:induction false} InsertedOrdered(e: Entry, es: seq<Entry>)
    requires Ordered(es) && e !in es
    ensures Ordered(Inserted(e, es))
    ensures forall f :: f in Inserted(e, es) <==> f == e || f in es
  {
    hide Less;
    if es == [] || !Less(es[0], e) {
      if es != [] { LessTotal(es[0], e); }
      forall j | 0 <= j < |es| ensures Less(e, es[j]) {
        if j > 0 { LessThrough(e, es[0], es[j]); }
      }
    } else {
      var rest := Inserted(e, es[1..]);
      assert es == [es[0]] + es[1..];
      InsertedOrdered(e, es[1..]);
      forall j | 0 <= j < |rest| ensures Less(es[0], rest[j]) { assert rest[j] == e || rest[j] in es[1..]; }
    }
  }

  lemma {:induction false} SortedOrdered(es: seq<Entry>)
    requires forall i, j :: 0 <= i < j < |es| ==> es[i] != es[j]
    ensures Ordered(Sorted(es)) && forall f :: f in Sorted(es) <==> f in es
  {
    if es != [] {
      assert es == [es[0]] + es[1..];
      SortedOrdered(es[1..]);
      InsertedOrdered(es[0], Sorted(es[1..]));
    }
  }

  lemma FirstOnce(es: seq<Entry>)
    requires Ordered(es) && es != []
    ensures es[0] !in es[1..]
  {
    hide Less;
    forall i | 0 <= i < |es[1..]| ensures es[1..][i] != es[0] { LessTotal(es[0], es[i + 1]); }
  }

  lemma FirstIsLeast(es: seq<Entry>, e: Entry)
    requires Ordered(es) && e in es
    ensures !Less(e, es[0])
  {
    LessTotal(e, es[0]);
  }

  /** There is one order of the same entries. */
  lemma {:induction false} OneOrder(a: seq<Entry>, b: seq<Entry>)
    requires Ordered(a) && Ordered(b) && forall e :: e in a <==> e in b
    ensures a == b
  {
    hide Less;
    assert b != [] ==> b[0] in b;
    if a != [] {
      assert a[0] in a && a[0] in b && b[0] in a;
      LessTotal(a[0], b[0]);
      assert a == [a[0]] + a[1..] && b == [b[0]] + b[1..];
      FirstOnce(a);
      FirstOnce(b);
      FirstIsLeast(a, b[0]);
      FirstIsLeast(b, a[0]);
      forall e ensures e in a[1..] <==> e in b[1..] { assert e in a <==> e in b; }
      OneOrder(a[1..], b[1..]);
    }
  }

  // ----- The text that is signed -----

  function HexDigit(n: nat): char
    requires n < 16
  {
    "0123456789abcdef"[n]
  }

  function Hex(hash: Hash): string {
    if hash == [] then "" else [HexDigit(hash[0] as int / 16), HexDigit(hash[0] as int % 16)] + Hex(hash[1..])
  }

  function Line(e: Entry): string { e.path + "\t" + Hex(e.hash) + "\n" }

  function InventoryText(es: seq<Entry>): string {
    if es == [] then "" else Line(es[0]) + InventoryText(es[1..])
  }

  lemma {:induction false} TextGrows(es: seq<Entry>, e: Entry)
    ensures InventoryText(es + [e]) == InventoryText(es) + Line(e)
  {
    if es == [] {
      assert [e][1..] == [] && es + [e] == [e];
    } else {
      assert (es + [e])[1..] == es[1..] + [e];
      TextGrows(es[1..], e);
    }
  }

  /** The text the content digest is taken of. */
  method DigestText(entries: seq<Entry>) returns (inventory: string)
    ensures inventory == InventoryText(entries)
  {
    inventory := "";
    for i := 0 to |entries|
      invariant inventory == InventoryText(entries[..i])
    {
      TextGrows(entries[..i], entries[i]);
      assert entries[..i + 1] == entries[..i] + [entries[i]];
      var e := entries[i];
      inventory := inventory + e.path;
      inventory := inventory + "\t";
      inventory := inventory + Hex(e.hash);
      inventory := inventory + "\n";
      assert inventory == InventoryText(entries[..i]) + Line(e);
    }
    assert entries[..|entries|] == entries;
  }

  /** Reads a package's inventory. */
  method Read(package: seq<Listed>) returns (inventory: Result<seq<Entry>>)
    ensures inventory == match Files("", package) case Ok(files) => Ok(Sorted(files)) case Err(problem) => Err(problem)
  {
    inventory := Collect("", package, []);
    if inventory.Ok? {
      assert [] + Files("", package).value == Files("", package).value;
      inventory := Ok(Sorted(inventory.value));
    }
  }

  lemma DigitApart(n: nat, m: nat)
    requires n < 16 && m < 16 && HexDigit(n) == HexDigit(m)
    ensures n == m
  {
    var digits := "0123456789abcdef";
    assert forall i, j :: 0 <= i < j < 16 ==> digits[i] != digits[j];
  }

  lemma {:induction false} HexApart(a: Hash, b: Hash)
    requires |a| == |b| && Hex(a) == Hex(b)
    ensures a == b
  {
    hide HexDigit;
    if a != [] {
      var x, y := a[0] as int, b[0] as int;
      assert Hex(a) == [HexDigit(x / 16), HexDigit(x % 16)] + Hex(a[1..]);
      assert Hex(b) == [HexDigit(y / 16), HexDigit(y % 16)] + Hex(b[1..]);
      SameEnds([HexDigit(x / 16), HexDigit(x % 16)], [HexDigit(y / 16), HexDigit(y % 16)], Hex(a[1..]), Hex(b[1..]));
      DigitApart(x / 16, y / 16);
      DigitApart(x % 16, y % 16);
      HexApart(a[1..], b[1..]);
      assert a == [a[0]] + a[1..] && b == [b[0]] + b[1..];
    }
  }

  lemma {:induction false} HexLength(a: Hash)
    ensures |Hex(a)| == 2 * |a|
  {
    if a != [] { HexLength(a[1..]); }
  }

  /** A path without control characters, and a hash of 32 bytes. */
  predicate Plain(e: Entry) { !HasControl(e.path) && |e.hash| == 32 }

  function TabAt(s: string): nat { if s == "" || s[0] == '\t' then 0 else 1 + TabAt(s[1..]) }

  lemma {:induction false} FirstTab(p: string, a: string)
    requires !HasControl(p)
    ensures TabAt(p + "\t" + a) == |p|
  {
    if p != "" {
      assert (p + "\t" + a)[1..] == p[1..] + "\t" + a;
      assert IsControl('\t');
      FirstTab(p[1..], a);
    }
  }

  lemma UpToTab(p: string, q: string, a: string, b: string)
    requires !HasControl(p) && !HasControl(q) && p + "\t" + a == q + "\t" + b
    ensures p == q && a == b
  {
    FirstTab(p, a);
    FirstTab(q, b);
    var s := p + "\t" + a;
    assert p == s[..|p|] && q == s[..|q|];
    assert a == s[|p| + 1..] && b == s[|q| + 1..];
  }

  lemma TextOfFirst(es: seq<Entry>)
    requires es != []
    ensures InventoryText(es) == es[0].path + "\t" + (Hex(es[0].hash) + ("\n" + InventoryText(es[1..])))
  {
    var e := es[0];
    assert Line(e) + InventoryText(es[1..]) == e.path + "\t" + (Hex(e.hash) + ("\n" + InventoryText(es[1..])));
  }

  lemma NoText(es: seq<Entry>)
    ensures es == [] <==> InventoryText(es) == ""
  {
    if es != [] { assert |InventoryText(es)| >= |Line(es[0])| > 0; }
  }

  /** The text determines the entries. */
  lemma {:induction false} TextDeterminesEntries(a: seq<Entry>, b: seq<Entry>)
    requires forall e :: e in a || e in b ==> Plain(e)
    requires InventoryText(a) == InventoryText(b)
    ensures a == b
  {
    NoText(a);
    NoText(b);
    hide InventoryText, Hex;
    if a != [] && b != [] {
      var e, f := a[0], b[0];
      assert e in a && f in b;
      var restA, restB := InventoryText(a[1..]), InventoryText(b[1..]);
      TextOfFirst(a);
      TextOfFirst(b);
      UpToTab(e.path, f.path, Hex(e.hash) + ("\n" + restA), Hex(f.hash) + ("\n" + restB));
      HexLength(e.hash);
      HexLength(f.hash);
      SameEnds(Hex(e.hash), Hex(f.hash), "\n" + restA, "\n" + restB);
      SameEnds("\n", "\n", restA, restB);
      HexApart(e.hash, f.hash);
      assert a == [e] + a[1..] && b == [f] + b[1..];
      TextDeterminesEntries(a[1..], b[1..]);
    }
  }

  lemma SameEnds(p: string, q: string, a: string, b: string)
    requires |p| == |q| && p + a == q + b
    ensures p == q && a == b
  {
    assert p == (p + a)[..|p|] && q == (q + b)[..|q|] && a == (p + a)[|p|..] && b == (q + b)[|q|..];
  }

  // ----- What the inventory says of a package -----

  /** The same files at the same paths, but for the root signature. */
  ghost predicate SameFiles(a: seq<Listed>, b: seq<Listed>) {
    forall c: seq<string> :: c != [] && c != [SIGNATURE_FILE] ==> Find(a, c) == Find(b, c)
  }

  predicate Hashed(listing: seq<Listed>)
    decreases listing
  {
    forall i :: 0 <= i < |listing| ==> HashedItem(listing[i])
  }

  predicate HashedItem(item: Listed)
    decreases item
  {
    match item.node
    case File(hash) => |hash| == 32
    case Folder(inner) => Hashed(inner)
    case _ => true
  }

  /** What is in the inventory is plain, and not the root signature. */
  lemma {:induction false} FilesPlain(prefix: string, listing: seq<Listed>)
    requires Hashed(listing) && Files(prefix, listing).Ok?
    ensures forall e :: e in Files(prefix, listing).value ==> Plain(e) && e.path != SIGNATURE_FILE
    decreases listing
  {
    if listing != [] {
      assert forall i :: 0 <= i < |listing[1..]| ==> listing[1..][i] == listing[i + 1];
      FilesPlain(prefix, listing[1..]);
      ItemPlain(prefix, listing[0]);
    }
  }

  lemma {:induction false} ItemPlain(prefix: string, item: Listed)
    requires HashedItem(item) && FilesOf(prefix, item).Ok?
    ensures forall e :: e in FilesOf(prefix, item).value ==> Plain(e) && e.path != SIGNATURE_FILE
    decreases item
  {
    if item.node.Folder? { FilesPlain(Relative(prefix, item.name.text), item.node.listing); }
  }

  lemma {:induction false} FoundIsNamed(listing: seq<Listed>, c: seq<string>)
    requires WellNamed(listing) && c != [] && Find(listing, c).Some?
    ensures Components(c)
    decreases |c|
  {
    NamedIsListed(listing, c[0]);
    var i :| 0 <= i < |listing| && listing[i].name == Text(c[0]) && listing[i].node == Named(listing, c[0]).value;
    assert ItemOk(listing[i]);
    if |c| > 1 { FoundIsNamed(listing[i].node.listing, c[1..]); }
    assert c == [c[0]] + c[1..];
  }

  /** A file of the package, other than the root signature, and its hash, are
      in the inventory, and nothing else is. */
  lemma InventoryHolds(package: seq<Listed>, es: seq<Entry>, c: seq<string>, hash: Hash)
    requires WellNamed(package) && Files("", package) == Ok(es)
    requires Components(c) && c != [] && c != [SIGNATURE_FILE]
    ensures Entry(PathOf(c), hash) in Sorted(es) <==> Find(package, c) == Some(hash)
  {
    assert PathOf([]) == "";
    FilesLocated([], package, es);
    DistinctEntries(package, es);
    SortedOrdered(es);
    PathParts(c);
    NotTheSignature(c);
    if Entry(PathOf(c), hash) in es {
      var i :| 0 <= i < |es| && es[i] == Entry(PathOf(c), hash);
      assert Located([], package, es[i]);
      assert c[0..] == c;
    }
    assert [] + c == c;
  }

  lemma NotTheSignature(c: seq<string>)
    requires Components(c) && c != []
    ensures PathOf(c) == SIGNATURE_FILE <==> c == [SIGNATURE_FILE]
  {
    PathParts(c);
    Names.SplitFirst(SIGNATURE_FILE, "", '/');
  }

  lemma DistinctEntries(package: seq<Listed>, es: seq<Entry>)
    requires Exactly([], package, es)
    ensures forall i, j :: 0 <= i < j < |es| ==> es[i] != es[j]
  {
    forall i, j | 0 <= i < j < |es| ensures es[i] != es[j] { assert es[i].path != es[j].path; }
  }

  /** Two packages give the same text exactly if they hold the same files with
      the same hashes at the same paths, the root signature aside. */
  lemma TextDeterminesPackage(a: seq<Listed>, b: seq<Listed>, fa: seq<Entry>, fb: seq<Entry>)
    requires WellNamed(a) && WellNamed(b) && Hashed(a) && Hashed(b)
    requires Files("", a) == Ok(fa) && Files("", b) == Ok(fb)
    ensures InventoryText(Sorted(fa)) == InventoryText(Sorted(fb)) <==> SameFiles(a, b)
  {
    if InventoryText(Sorted(fa)) == InventoryText(Sorted(fb)) {
      InventoryPlain(a, fa);
      InventoryPlain(b, fb);
      TextDeterminesEntries(Sorted(fa), Sorted(fb));
      forall c: seq<string> | c != [] && c != [SIGNATURE_FILE] ensures Find(a, c) == Find(b, c) {
        SameFound(a, b, fa, fb, c);
        SameFound(b, a, fb, fa, c);
      }
    }
    if SameFiles(a, b) {
      SameEntries(a, b, fa, fb);
      SameEntries(b, a, fb, fa);
      InventoryPlain(a, fa);
      InventoryPlain(b, fb);
      OneOrder(Sorted(fa), Sorted(fb));
    }
  }

  lemma InventoryPlain(a: seq<Listed>, fa: seq<Entry>)
    requires WellNamed(a) && Hashed(a) && Files("", a) == Ok(fa)
    ensures Ordered(Sorted(fa)) && forall e :: e in Sorted(fa) ==> Plain(e)
  {
    assert PathOf([]) == "";
    FilesLocated([], a, fa);
    DistinctEntries(a, fa);
    SortedOrdered(fa);
    FilesPlain("", a);
  }

  lemma SameFound(a: seq<Listed>, b: seq<Listed>, fa: seq<Entry>, fb: seq<Entry>, c: seq<string>)
    requires WellNamed(a) && WellNamed(b) && Files("", a) == Ok(fa) && Files("", b) == Ok(fb)
    requires Sorted(fa) == Sorted(fb) && c != [] && c != [SIGNATURE_FILE]
    ensures Find(a, c).Some? ==> Find(b, c) == Find(a, c)
  {
    if Find(a, c).Some? {
      FoundIsNamed(a, c);
      InventoryHolds(a, fa, c, Find(a, c).value);
      InventoryHolds(b, fb, c, Find(a, c).value);
    }
  }

  lemma SameEntries(a: seq<Listed>, b: seq<Listed>, fa: seq<Entry>, fb: seq<Entry>)
    requires WellNamed(a) && WellNamed(b) && Files("", a) == Ok(fa) && Files("", b) == Ok(fb) && SameFiles(a, b)
    requires Hashed(a)
    ensures forall e :: e in Sorted(fa) ==> e in Sorted(fb)
  {
    FilesPlain("", a);
    assert PathOf([]) == "";
    FilesLocated([], a, fa);
    DistinctEntries(a, fa);
    SortedOrdered(fa);
    forall e | e in Sorted(fa) ensures e in Sorted(fb) {
      var i :| 0 <= i < |fa| && fa[i] == e;
      assert Located([], a, fa[i]);
      var c := Names.Split(e.path, '/');
      assert c[0..] == c;
      FoundIsNamed(a, c);
      Names.JoinSplit(e.path, '/');
      NotTheSignature(c);
      InventoryHolds(b, fb, c, e.hash);
    }
  }

  // ----- The order a file system lists in -----

  /** The same directory tree, listed in another order. */
  predicate Reordered(a: seq<Listed>, b: seq<Listed>)
    decreases a, 1
  {
    Within(a, b) && Covering(a, b)
  }

  predicate Within(a: seq<Listed>, b: seq<Listed>)
    decreases a, 0
  {
    forall i :: 0 <= i < |a| ==> exists j :: 0 <= j < |b| && Alike(a[i], b[j])
  }

  predicate Covering(a: seq<Listed>, b: seq<Listed>)
    decreases a, 0
  {
    forall j :: 0 <= j < |b| ==> exists i :: 0 <= i < |a| && Alike(a[i], b[j])
  }

  predicate Alike(x: Listed, y: Listed)
    decreases x
  {
    x.name == y.name
    && match x.node
       case File(hash) => y.node == File(hash)
       case Folder(inner) => y.node.Folder? && Reordered(inner, y.node.listing)
       case SymLink => y.node.SymLink?
       case Special => y.node.Special?
  }

  /** Nothing in the directory is refused. */
  predicate Accepted(prefix: string, listing: seq<Listed>)
    decreases listing
  {
    forall i :: 0 <= i < |listing| ==> ItemAccepted(prefix, listing[i])
  }

  predicate ItemAccepted(prefix: string, item: Listed)
    decreases item
  {
    item.name.Text? && !HasControl(Relative(prefix, item.name.text))
    && (item.node.File? || (item.node.Folder? && Accepted(Relative(prefix, item.name.text), item.node.listing)))
  }

  lemma {:induction false} AcceptedExactly(prefix: string, listing: seq<Listed>)
    ensures Files(prefix, listing).Ok? <==> Accepted(prefix, listing)
    decreases listing
  {
    if listing != [] {
      assert forall i :: 0 <= i < |listing[1..]| ==> listing[1..][i] == listing[i + 1];
      AcceptedExactly(prefix, listing[1..]);
      ItemAcceptedExactly(prefix, listing[0]);
    }
  }

  lemma {:induction false} ItemAcceptedExactly(prefix: string, item: Listed)
    ensures FilesOf(prefix, item).Ok? <==> ItemAccepted(prefix, item)
    decreases item
  {
    if item.name.Text? && item.node.Folder? {
      AcceptedExactly(Relative(prefix, item.name.text), item.node.listing);
    }
  }

  lemma {:induction false} InOther(a: seq<Listed>, b: seq<Listed>, i: nat) returns (j: nat)
    requires Within(a, b) && i < |a|
    ensures j < |b| && Alike(a[i], b[j])
  {
    var x := a[i];
    assert exists k :: 0 <= k < |b| && Alike(x, b[k]);
    j :| j < |b| && Alike(x, b[j]);
  }

  lemma {:induction false} InFirst(a: seq<Listed>, b: seq<Listed>, j: nat) returns (i: nat)
    requires Covering(a, b) && j < |b|
    ensures i < |a| && Alike(a[i], b[j])
  {
    var y := b[j];
    assert exists k :: 0 <= k < |a| && Alike(a[k], y);
    i :| i < |a| && Alike(a[i], y);
  }

  lemma {:induction false} ReorderedAccepted(prefix: string, a: seq<Listed>, b: seq<Listed>)
    requires Reordered(a, b)
    ensures Accepted(prefix, a) <==> Accepted(prefix, b)
    decreases a
  {
    hide Alike, ItemAccepted, Within, Covering;
    if Accepted(prefix, a) {
      forall j | 0 <= j < |b| ensures ItemAccepted(prefix, b[j]) {
        var i := InFirst(a, b, j);
        AlikeAccepted(prefix, a[i], b[j]);
      }
    } else {
      var i :| 0 <= i < |a| && !ItemAccepted(prefix, a[i]);
      var j := InOther(a, b, i);
      AlikeAccepted(prefix, a[i], b[j]);
    }
  }

  lemma {:induction false} AlikeAccepted(prefix: string, x: Listed, y: Listed)
    requires Alike(x, y)
    ensures ItemAccepted(prefix, x) <==> ItemAccepted(prefix, y)
    decreases x
  {
    if x.name.Text? && x.node.Folder? {
      ReorderedAccepted(Relative(prefix, x.name.text), x.node.listing, y.node.listing);
    }
  }

  lemma {:induction false} ListedIsNamed(listing: seq<Listed>, i: nat)
    requires WellNamed(listing) && i < |listing| && listing[i].name.Text?
    ensures Named(listing, listing[i].name.text) == Some(listing[i].node)
  {
    if i > 0 {
      assert forall j :: 0 <= j < |listing[1..]| ==> listing[1..][j] == listing[j + 1];
      ListedIsNamed(listing[1..], i - 1);
    }
  }

  lemma {:induction false} ReorderedFinds(a: seq<Listed>, b: seq<Listed>, c: seq<string>)
    requires Reordered(a, b) && WellNamed(a) && WellNamed(b) && c != []
    ensures Find(a, c) == Find(b, c)
    decreases |c|, 1
  {
    hide Alike, ItemOk, Find, Within, Covering;
    NamedIsListed(a, c[0]);
    NamedIsListed(b, c[0]);
    if Named(a, c[0]).Some? {
      var i :| 0 <= i < |a| && a[i].name == Text(c[0]) && a[i].node == Named(a, c[0]).value;
      var j := InOther(a, b, i);
      AlikeName(a[i], b[j]);
      ListedIsNamed(b, j);
      AlikeFind(a[i], b[j], c, a, b);
    } else if Named(b, c[0]).Some? {
      var j :| 0 <= j < |b| && b[j].name == Text(c[0]) && b[j].node == Named(b, c[0]).value;
      var i := InFirst(a, b, j);
      AlikeName(a[i], b[j]);
      ListedIsNamed(a, i);
    } else {
      FindNone(a, b, c);
    }
  }

  lemma AlikeName(x: Listed, y: Listed)
    requires Alike(x, y)
    ensures x.name == y.name
  {
  }

  lemma FindNone(a: seq<Listed>, b: seq<Listed>, c: seq<string>)
    requires c != [] && Named(a, c[0]) == None && Named(b, c[0]) == None
    ensures Find(a, c) == Find(b, c)
  {
  }

  lemma {:induction false} AlikeFind(x: Listed, y: Listed, c: seq<string>, a: seq<Listed>, b: seq<Listed>)
    requires Alike(x, y) && ItemOk(x) && ItemOk(y) && c != []
    requires Named(a, c[0]) == Some(x.node) && Named(b, c[0]) == Some(y.node)
    ensures Find(a, c) == Find(b, c)
    decreases |c|, 0
  {
    if |c| > 1 && x.node.Folder? { ReorderedFinds(x.node.listing, y.node.listing, c[1..]); }
  }

  /** The order of listings changes neither whether a package is accepted nor
      its inventory text. */
  lemma OrderDoesNotMatter(a: seq<Listed>, b: seq<Listed>)
    requires Reordered(a, b) && WellNamed(a) && WellNamed(b) && Hashed(a) && Hashed(b)
    ensures Files("", a).Ok? <==> Files("", b).Ok?
    ensures Files("", a).Ok? ==> InventoryText(Sorted(Files("", a).value)) == InventoryText(Sorted(Files("", b).value))
  {
    AcceptedExactly("", a);
    AcceptedExactly("", b);
    ReorderedAccepted("", a, b);
    if Files("", a).Ok? {
      forall c: seq<string> | c != [] ensures Find(a, c) == Find(b, c) { ReorderedFinds(a, b, c); }
      TextDeterminesPackage(a, b, Files("", a).value, Files("", b).value);
    }
  }
}
