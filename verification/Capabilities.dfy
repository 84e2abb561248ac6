/** The capability vocabulary and its text. */
module Capabilities {
  import opened Options
  import opened Names

  datatype Access = Read | ReadWrite

  datatype FetchScope = AnyHost | Host(name: string)

  datatype Capability =
    | AppData(access: Access)
    | Documents(access: Access)
    | Fetch(scope: FetchScope)
    | Notifications
    | ClipboardRead
    | ClipboardWrite
    | GpuCompute
    | GpuRender

  const FETCH_PREFIX := "net:fetch:"

  /** A capability as it is written. */
  function Display(c: Capability): string {
    match c
    case AppData(access) => if access.Read? then "fs:read:app-data" else "fs:rw:app-data"
    case Documents(access) => if access.Read? then "fs:read:xdg-documents" else "fs:rw:xdg-documents"
    case Fetch(AnyHost) => "net:fetch:*"
    case Fetch(Host(name)) => FETCH_PREFIX + name
    case Notifications => "sys:notifications"
    case ClipboardRead => "sys:clipboard:read"
    case ClipboardWrite => "sys:clipboard:write"
    case GpuCompute => "hw:gpu:compute"
    case GpuRender => "hw:gpu:render"
  }

  predicate StartsWith(s: string, prefix: string) { |prefix| <= |s| && s[..|prefix|] == prefix }

  predicate AllDigits(s: string) { forall i :: 0 <= i < |s| ==> IsDigit(s[i]) }

  function Number(s: string): nat
    requires AllDigits(s)
  {
    if s == "" then 0 else 10 * Number(s[..|s| - 1]) + (s[|s| - 1] as int - 48)
  }

  predicate IsOctet(octet: string) {
    octet != "" && |octet| <= 3 && (|octet| == 1 || octet[0] != '0') && AllDigits(octet) && Number(octet) <= 255
  }

  predicate IsIpv4(labels: seq<string>) { |labels| == 4 && forall i :: 0 <= i < 4 ==> IsOctet(labels[i]) }

  predicate IsLabel(part: string) {
    && part != "" && |part| <= 63 && part[0] != '-' && part[|part| - 1] != '-'
    && forall i :: 0 <= i < |part| ==> IsLower(part[i]) || IsDigit(part[i]) || part[i] == '-'
  }

  /** A host in the form URL parsing produces: a lowercase name, or an IPv4
      address without leading zeros. */
  predicate IsHostName(host: string) {
    var labels := Split(host, '.');
    var last := labels[|labels| - 1];
    if StartsWith(last, "0x") then false
    else if last != "" && AllDigits(last) then IsIpv4(labels)
    else |host| <= 253 && forall i :: 0 <= i < |labels| ==> IsLabel(labels[i])
  }

  /** The capabilities that are one fixed text. */
  function Fixed(s: string): Option<Capability> {
    match s
    case "fs:read:app-data" => Some(AppData(Read))
    case "fs:rw:app-data" => Some(AppData(ReadWrite))
    case "fs:read:xdg-documents" => Some(Documents(Read))
    case "fs:rw:xdg-documents" => Some(Documents(ReadWrite))
    case "net:fetch:*" => Some(Fetch(AnyHost))
    case "sys:notifications" => Some(Notifications)
    case "sys:clipboard:read" => Some(ClipboardRead)
    case "sys:clipboard:write" => Some(ClipboardWrite)
    case "hw:gpu:compute" => Some(GpuCompute)
    case "hw:gpu:render" => Some(GpuRender)
    case _ => None
  }

  function Parse(s: string): Option<Capability> {
    if Fixed(s).Some? then Fixed(s)
    else if StartsWith(s, FETCH_PREFIX) && IsHostName(s[|FETCH_PREFIX|..])
    then Some(Fetch(Host(s[|FETCH_PREFIX|..])))
    else None
  }

  /** A capability some text names. */
  predicate Wellformed(c: Capability) { c.Fetch? && c.scope.Host? ==> IsHostName(c.scope.name) }

  /** The characters of a host name. */
  lemma HostCharacters(host: string)
    requires IsHostName(host)
    ensures host != ""
    ensures forall c :: c in host ==> IsLower(c) || IsDigit(c) || c == '-' || c == '.'
  {
    var labels := Split(host, '.');
    SplitParts(host, '.');
    assert labels[0] in labels;
    assert host == "" ==> labels == [""];
    forall c | c in host ensures IsLower(c) || IsDigit(c) || c == '-' || c == '.' {
      if c != '.' {
        var p :| p in labels && c in p;
        var i :| 0 <= i < |labels| && labels[i] == p;
        var k :| 0 <= k < |p| && p[k] == c;
      }
    }
  }

  lemma FixedDisplay(c: Capability)
    requires !(c.Fetch? && c.scope.Host?)
    ensures Fixed(Display(c)) == Some(c)
  {
  }

  lemma DisplayFixed(s: string)
    requires Fixed(s).Some?
    ensures Display(Fixed(s).value) == s && !(Fixed(s).value.Fetch? && Fixed(s).value.scope.Host?)
  {
  }

  /** Of the texts starting with `n`, only one is fixed. */
  lemma OneFixedFetch(s: string)
    requires s != "" && s[0] == 'n' && s != "net:fetch:*"
    ensures Fixed(s) == None
  {
  }

  /** Every capability is written as text that names it, and only it. */
  lemma ParseDisplay(c: Capability)
    requires Wellformed(c)
    ensures Parse(Display(c)) == Some(c)
  {
    hide Fixed, IsHostName;
    if c.Fetch? && c.scope.Host? {
      var name, s := c.scope.name, Display(c);
      HostCharacters(name);
      assert s[|FETCH_PREFIX|..] == name && s[..|FETCH_PREFIX|] == FETCH_PREFIX;
      assert "net:fetch:*"[|FETCH_PREFIX|..] == "*";
      assert '*' in "*" && '*' !in name;
      OneFixedFetch(s);
    } else {
      FixedDisplay(c);
    }
  }

  /** Text that names a capability is how that capability is written. */
  lemma DisplayParse(s: string)
    requires Parse(s).Some?
    ensures Display(Parse(s).value) == s && Wellformed(Parse(s).value)
  {
    hide Fixed, IsHostName;
    if Fixed(s).Some? {
      DisplayFixed(s);
    } else {
      assert s == s[..|FETCH_PREFIX|] + s[|FETCH_PREFIX|..];
    }
  }

  predicate Visible(s: string) { forall c :: c in s ==> '!' <= c <= '~' }

  lemma DirVisible(c: Capability)
    requires c.AppData? || c.Documents?
    ensures Display(c) != "" && Visible(Display(c))
  {
  }

  lemma FixedVisible(c: Capability)
    requires !(c.Fetch? && c.scope.Host?)
    ensures Display(c) != "" && Visible(Display(c))
  {
    if c.AppData? || c.Documents? { DirVisible(c); }
  }

  /** Neither a space nor a control character is in the text of a capability. */
  lemma CapabilityCharacters(s: string)
    requires Parse(s).Some?
    ensures s != "" && Visible(s)
  {
    hide Fixed, Parse, IsHostName;
    DisplayParse(s);
    var c := Parse(s).value;
    if c.Fetch? && c.scope.Host? {
      HostCharacters(c.scope.name);
      FetchVisible(c.scope.name);
    } else {
      FixedVisible(c);
    }
  }

  lemma FetchVisible(name: string)
    requires forall c :: c in name ==> IsLower(c) || IsDigit(c) || c == '-' || c == '.'
    ensures Visible(FETCH_PREFIX + name)
  {
    assert Visible(FETCH_PREFIX) && Visible(name);
  }

  // ----- The vocabulary, text by text -----

  lemma DirTexts()
    ensures Parse("fs:read:app-data") == Some(AppData(Read)) && Parse("fs:rw:app-data") == Some(AppData(ReadWrite))
    ensures Parse("fs:read:xdg-documents") == Some(Documents(Read))
    ensures Parse("fs:rw:xdg-documents") == Some(Documents(ReadWrite))
  {
  }

  lemma ImportTexts()
    ensures Parse("sys:notifications") == Some(Notifications)
    ensures Parse("sys:clipboard:read") == Some(ClipboardRead) && Parse("sys:clipboard:write") == Some(ClipboardWrite)
    ensures Parse("hw:gpu:compute") == Some(GpuCompute) && Parse("hw:gpu:render") == Some(GpuRender)
  {
  }

  /** Fetching is any host with a star, or the host that follows the prefix. */
  lemma FetchTexts(host: string)
    ensures Parse("net:fetch:*") == Some(Fetch(AnyHost))
    ensures IsHostName(host) ==> Parse("net:fetch:" + host) == Some(Fetch(Host(host)))
  {
    if IsHostName(host) { ParseDisplay(Fetch(Host(host))); }
    hide IsHostName;
  }

  // ----- Host names that are accepted -----

  /** Labels of a name, the last one no number. */
  predicate NameLabels(labels: seq<string>) {
    && labels != [] && (forall i :: 0 <= i < |labels| ==> IsLabel(labels[i]) && '.' !in labels[i])
    && !AllDigits(labels[|labels| - 1]) && !StartsWith(labels[|labels| - 1], "0x")
  }

  /** Labels around dots are a host name, unless they are too long together. */
  lemma NamesAreHosts(labels: seq<string>)
    requires NameLabels(labels)
    ensures IsHostName(Join(labels, '.')) <==> |Join(labels, '.')| <= 253
  {
    forall l | l in labels ensures '.' !in l {}
    SplitJoin(labels, '.');
  }

  function Digit(d: nat): char
    requires d < 10
  {
    "0123456789"[d]
  }

  function Decimal(n: nat): string
    requires n < 256
  {
    if n < 10 then [Digit(n)]
    else if n < 100 then [Digit(n / 10)] + [Digit(n % 10)]
    else [Digit(n / 100)] + [Digit(n / 10 % 10)] + [Digit(n % 10)]
  }

  lemma DigitValue(d: nat)
    requires d < 10
    ensures IsDigit(Digit(d)) && Digit(d) as int - 48 == d && (Digit(d) == '0' <==> d == 0)
  {
  }

  lemma NumberMore(s: string, d: nat)
    requires AllDigits(s) && d < 10
    ensures AllDigits(s + [Digit(d)]) && Number(s + [Digit(d)]) == 10 * Number(s) + d
  {
    DigitValue(d);
    hide Digit;
    assert (s + [Digit(d)])[..|s|] == s;
  }

  lemma DecimalIsOctet(n: nat)
    requires n < 256
    ensures IsOctet(Decimal(n)) && '.' !in Decimal(n) && Number(Decimal(n)) == n
  {
    hide Digit, Number;
    NumberOfNothing();
    var high := if n < 10 then n else if n < 100 then n / 10 else n / 100;
    NumberMore("", high);
    DigitValue(high);
    assert "" + [Digit(high)] == [Digit(high)];
    if n >= 100 { NumberMore([Digit(high)], n / 10 % 10); }
    if n >= 10 { NumberMore(Decimal(n)[..|Decimal(n)| - 1], n % 10); }
    assert forall i :: 0 <= i < |Decimal(n)| ==> IsDigit(Decimal(n)[i]);
  }

  lemma NumberOfNothing()
    ensures Number("") == 0
  {
  }

  lemma DigitsAreNotHex(s: string)
    requires AllDigits(s)
    ensures !StartsWith(s, "0x")
  {
    if |s| >= 2 { assert s[..2][1] == s[1] && IsDigit(s[1]) && "0x"[1] == 'x'; }
  }

  /** Every dotted decimal address is a host name, and a request to it is one
      to an address. */
  lemma AddressesAreHosts(a: nat, b: nat, c: nat, d: nat)
    requires a < 256 && b < 256 && c < 256 && d < 256
    ensures var labels := [Decimal(a), Decimal(b), Decimal(c), Decimal(d)];
      IsHostName(Join(labels, '.')) && IsIpv4(Split(Join(labels, '.'), '.'))
  {
    DecimalIsOctet(a);
    DecimalIsOctet(b);
    DecimalIsOctet(c);
    DecimalIsOctet(d);
    hide Decimal, Number;
    var labels := [Decimal(a), Decimal(b), Decimal(c), Decimal(d)];
    SplitJoin(labels, '.');
    DigitsAreNotHex(labels[3]);
  }
}
