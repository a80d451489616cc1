/**
 Parsing nmcli's terse output: active connections, UUIDs and WireGuard endpoints. Each
 parser is the inverse of a printer, with colons in names and in addresses.
 */
module NmcliParsing {
  import opened Basics
  import opened Text
  import opened LineFraming

  /** A line as the standard line iterator yields it, without `\n` or `\r\n`. */
  function LineText(l: RawLine): string {
    if l.terminated && l.text != "" && l.text[|l.text| - 1] == '\r' then l.text[..|l.text| - 1] else l.text
  }

  /** What is printed for a list, one line each. */
  function Terminated<A>(text: A -> string, xs: seq<A>): (r: seq<RawLine>)
    ensures |r| == |xs| && forall i :: 0 <= i < |xs| ==> r[i] == RawLine(text(xs[i]), true)
  {
    seq(|xs|, i requires 0 <= i < |xs| => RawLine(text(xs[i]), true))
  }

  function SplitOnce(s: string, c: char): Option<(string, string)> {
    var n := Find(s, c);
    if n < |s| then Some((s[..n], s[n + 1..])) else None
  }

  function RSplitOnce(s: string, c: char): Option<(string, string)> {
    var n := FindLast(s, c);
    if n > 0 then Some((s[..n - 1], s[n..])) else None
  }

  lemma SplitOnceAt(a: string, c: char, b: string)
    requires c !in a
    ensures SplitOnce(a + [c] + b, c) == Some((a, b))
  {
    FindAt(a, c, b);
    assert (a + [c] + b)[..|a|] == a && (a + [c] + b)[|a| + 1..] == b;
  }

  lemma RSplitOnceAt(a: string, c: char, b: string)
    requires c !in b
    ensures RSplitOnce(a + [c] + b, c) == Some((a, b))
  {
    FindLastAt(a, c, b);
    assert (a + [c] + b)[..|a|] == a && (a + [c] + b)[|a| + 1..] == b;
  }

  predicate IsVpnConnectionType(kind: string) {
    kind == "vpn" || kind == "wireguard"
  }

  /** Everything found in the elements of a list, in order. */
  function Gather<A, B>(f: A -> seq<B>, xs: seq<A>): seq<B> {
    if xs == [] then [] else Gather(f, xs[..|xs| - 1]) + f(xs[|xs| - 1])
  }

  lemma GatherNext<A, B>(f: A -> seq<B>, xs: seq<A>, i: nat)
    requires i < |xs|
    ensures Gather(f, xs[..i + 1]) == Gather(f, xs[..i]) + f(xs[i])
  {
    assert xs[..i + 1][..i] == xs[..i];
  }

  lemma GatherOne<A, B>(f: A -> seq<B>, x: A)
    ensures Gather(f, [x]) == f(x)
  {
    assert [x][..0] == [];
  }

  lemma {:induction false} GatherConcat<A, B>(f: A -> seq<B>, a: seq<A>, b: seq<A>)
    ensures Gather(f, a + b) == Gather(f, a) + Gather(f, b)
  {
    if b == [] {
      assert a + b == a;
    } else {
      assert (a + b)[..|a + b| - 1] == a + b[..|b| - 1];
      GatherConcat(f, a, b[..|b| - 1]);
    }
  }

  lemma {:induction false} GatherSame<A, A', B>(f: A -> seq<B>, xs: seq<A>, g: A' -> seq<B>, ys: seq<A'>)
    requires |xs| == |ys| && forall i :: 0 <= i < |xs| ==> f(xs[i]) == g(ys[i])
    ensures Gather(f, xs) == Gather(g, ys)
  {
    if xs != [] {
      GatherSame(f, xs[..|xs| - 1], g, ys[..|ys| - 1]);
    }
  }

  lemma {:induction false} GatherNothing<A, B>(f: A -> seq<B>, xs: seq<A>)
    requires forall x <- xs :: f(x) == []
    ensures Gather(f, xs) == []
  {
    if xs != [] {
      GatherNothing(f, xs[..|xs| - 1]);
      assert xs[|xs| - 1] in xs;
    }
  }

  // ---------------------------------------------------------------------
  // Active connections: NAME:TYPE:STATE
  // ---------------------------------------------------------------------

  datatype NmVpnState = Activated | Activating | Deactivating

  function ParseVpnState(s: string): Option<NmVpnState> {
    if s == "activated" then Some(Activated)
    else if s == "activating" then Some(Activating)
    else if s == "deactivating" then Some(Deactivating)
    else None
  }

  datatype ActiveVpnInfo = ActiveVpnInfo(name: string, state: NmVpnState)

  function ParseActiveLine(line: string): seq<ActiveVpnInfo> {
    match RSplitOnce(line, ':')
    case None => []
    case Some((rest, stateText)) =>
      match RSplitOnce(rest, ':')
      case None => []
      case Some((name, kind)) =>
        if !IsVpnConnectionType(kind) then []
        else
          match ParseVpnState(stateText)
          case None => []
          case Some(state) => [ActiveVpnInfo(name, state)]
  }

  function VpnsOnLine(l: RawLine): seq<ActiveVpnInfo> {
    ParseActiveLine(LineText(l))
  }

  method ParseActiveVpns(stdout: string) returns (vpns: seq<ActiveVpnInfo>)
    ensures vpns == Gather(VpnsOnLine, SplitLines(stdout))
  {
    vpns := [];
    var lines := SplitLines(stdout);
    for i := 0 to |lines|
      invariant vpns == Gather(VpnsOnLine, lines[..i])
    {
      GatherNext(VpnsOnLine, lines, i);
      var last := RSplitOnce(LineText(lines[i]), ':');
      if last.None? {
        continue;
      }
      var (rest, stateText) := last.value;
      var middle := RSplitOnce(rest, ':');
      if middle.None? {
        continue;
      }
      var (name, kind) := middle.value;
      if !IsVpnConnectionType(kind) {
        continue;
      }
      var state := ParseVpnState(stateText);
      if state.Some? {
        vpns := vpns + [ActiveVpnInfo(name, state.value)];
      }
    }
    assert lines[..|lines|] == lines;
  }

  /** A connection as nmcli lists it; the name may hold colons. */
  datatype Listed = Listed(name: string, kind: string, state: string) {
    predicate Printable() {
      '\n' !in name && '\n' !in kind && '\n' !in state && ':' !in kind && ':' !in state && '\r' !in state
    }
  }

  function ListedText(l: Listed): string {
    l.name + ":" + l.kind + ":" + l.state
  }

  function StateText(s: NmVpnState): string {
    match s
    case Activated => "activated"
    case Activating => "activating"
    case Deactivating => "deactivating"
  }

  /** A listed connection, if it is a VPN with a known state. */
  function Vpns(l: Listed): seq<ActiveVpnInfo> {
    if l.kind !in {"vpn", "wireguard"} then []
    else if l.state == StateText(Activated) then [ActiveVpnInfo(l.name, Activated)]
    else if l.state == StateText(Activating) then [ActiveVpnInfo(l.name, Activating)]
    else if l.state == StateText(Deactivating) then [ActiveVpnInfo(l.name, Deactivating)]
    else []
  }

  lemma ListedIsLine(l: Listed)
    requires l.Printable()
    ensures LineText(RawLine(ListedText(l), true)) == ListedText(l) && '\n' !in ListedText(l)
  {
    var t := ListedText(l);
    if l.state != "" {
      assert t[|t| - 1] == l.state[|l.state| - 1] && l.state[|l.state| - 1] in l.state;
    } else {
      assert t[|t| - 1] == ':';
    }
  }

  lemma ListedParses(l: Listed)
    requires l.Printable()
    ensures VpnsOnLine(RawLine(ListedText(l), true)) == Vpns(l)
  {
    var head := l.name + ":" + l.kind;
    ListedIsLine(l);
    assert ListedText(l) == head + [':'] + l.state && head == l.name + [':'] + l.kind;
    RSplitOnceAt(head, ':', l.state);
    RSplitOnceAt(l.name, ':', l.kind);
  }

  /** Parsing what nmcli printed recovers the VPN connections, colons in names included. */
  lemma ActiveVpnsRoundTrip(ls: seq<Listed>)
    requires forall l <- ls :: l.Printable()
    ensures Gather(VpnsOnLine, SplitLines(PrintAll(Terminated(ListedText, ls)))) == Gather(Vpns, ls)
  {
    forall i | 0 <= i < |ls|
      ensures '\n' !in ListedText(ls[i]) && VpnsOnLine(RawLine(ListedText(ls[i]), true)) == Vpns(ls[i])
    {
      ListedIsLine(ls[i]);
      ListedParses(ls[i]);
    }
    SplitOfPrint(Terminated(ListedText, ls));
    GatherSame(VpnsOnLine, Terminated(ListedText, ls), Vpns, ls);
  }

  /** How nmcli's terse mode escapes a field by default. */
  function Escaped(s: string): string {
    if s == "" then "" else (if s[0] in {':', '\\'} then "\\" else "") + [s[0]] + Escaped(s[1..])
  }

  lemma {:induction false} EscapedLength(s: string)
    ensures |Escaped(s)| >= |s| && ('\n' !in s ==> '\n' !in Escaped(s))
    ensures |Escaped(s)| == |s| <==> ':' !in s && '\\' !in s
    ensures ':' !in s && '\\' !in s ==> Escaped(s) == s
  {
    if s != "" {
      EscapedLength(s[1..]);
      assert s == [s[0]] + s[1..];
    }
  }

  function EscapedListing(l: Listed): Listed {
    l.(name := Escaped(l.name))
  }

  /**
   The parsers do not undo the escapes: of an escaped listing they recover each name as it
   was escaped, which is the name itself exactly when it holds neither colon nor backslash.
   */
  lemma EscapedRoundTrip(ls: seq<Listed>)
    requires forall l <- ls :: l.Printable()
    ensures var printed := seq(|ls|, i requires 0 <= i < |ls| => EscapedListing(ls[i]));
            Gather(VpnsOnLine, SplitLines(PrintAll(Terminated(ListedText, printed)))) == Gather(Vpns, printed)
    ensures forall l <- ls :: Escaped(l.name) == l.name <==> ':' !in l.name && '\\' !in l.name
  {
    var printed := seq(|ls|, i requires 0 <= i < |ls| => EscapedListing(ls[i]));
    forall l | l in ls
      ensures EscapedListing(l).Printable() && (Escaped(l.name) == l.name <==> ':' !in l.name && '\\' !in l.name)
    {
      EscapedLength(l.name);
    }
    ActiveVpnsRoundTrip(printed);
  }

  // ---------------------------------------------------------------------
  // UUIDs: UUID:NAME:TYPE
  // ---------------------------------------------------------------------

  function UuidOnLine(line: string, connection: string): Option<string> {
    match SplitOnce(line, ':')
    case None => None
    case Some((uuid, rest)) =>
      match RSplitOnce(rest, ':')
      case None => None
      case Some((name, kind)) => if IsVpnConnectionType(kind) && name == connection then Some(uuid) else None
  }

  function FirstUuid(lines: seq<RawLine>, connection: string): Option<string> {
    if lines == [] then None
    else
      var here := UuidOnLine(LineText(lines[0]), connection);
      if here.Some? then here else FirstUuid(lines[1..], connection)
  }

  /** The UUID on one line, if it is the profile asked for. */
  method MatchLine(line: string, connection: string) returns (found: Option<string>)
    ensures found == UuidOnLine(line, connection)
  {
    var first := SplitOnce(line, ':');
    if first.Some? {
      var (uuid, rest) := first.value;
      var last := RSplitOnce(rest, ':');
      if last.Some? {
        var (name, kind) := last.value;
        if IsVpnConnectionType(kind) && name == connection {
          return Some(uuid);
        }
      }
    }
    return None;
  }

  method ParseVpnUuid(stdout: string, connection: string) returns (uuid: Option<string>)
    ensures uuid == FirstUuid(SplitLines(stdout), connection)
  {
    var lines := SplitLines(stdout);
    for i := 0 to |lines|
      invariant FirstUuid(lines, connection) == FirstUuid(lines[i..], connection)
    {
      uuid := MatchLine(LineText(lines[i]), connection);
      if uuid.Some? {
        return;
      }
    }
    return None;
  }

  /** A stored profile; its name may hold colons. */
  datatype Profile = Profile(uuid: string, name: string, kind: string) {
    predicate Printable() {
      '\n' !in uuid && '\n' !in name && '\n' !in kind && ':' !in uuid && ':' !in kind && '\r' !in kind
    }

    predicate Matches(connection: string) {
      kind in {"vpn", "wireguard"} && name == connection
    }
  }

  function ProfileText(p: Profile): string {
    p.uuid + ":" + (p.name + ":" + p.kind)
  }

  lemma ProfileParses(p: Profile, connection: string)
    requires p.Printable()
    ensures UuidOnLine(LineText(RawLine(ProfileText(p), true)), connection) ==
            if p.Matches(connection) then Some(p.uuid) else None
  {
    var rest := p.name + ":" + p.kind;
    ProfileIsLine(p);
    assert ProfileText(p) == p.uuid + [':'] + rest && rest == p.name + [':'] + p.kind;
    SplitOnceAt(p.uuid, ':', rest);
    RSplitOnceAt(p.name, ':', p.kind);
  }

  lemma ProfileIsLine(p: Profile)
    requires p.Printable()
    ensures LineText(RawLine(ProfileText(p), true)) == ProfileText(p) && '\n' !in ProfileText(p)
  {
    var t := ProfileText(p);
    if p.kind != "" {
      assert t[|t| - 1] == p.kind[|p.kind| - 1] && p.kind[|p.kind| - 1] in p.kind;
    } else {
      assert t[|t| - 1] == ':';
    }
  }

  /** The first VPN profile with exactly the name asked for, or the length. */
  function FirstMatch(ps: seq<Profile>, connection: string): (n: nat)
    ensures n <= |ps|
    ensures forall i :: 0 <= i < n ==> !ps[i].Matches(connection)
    ensures n < |ps| ==> ps[n].Matches(connection)
  {
    if ps == [] || ps[0].Matches(connection) then 0 else 1 + FirstMatch(ps[1..], connection)
  }

  /** The UUID found is that of the first VPN profile with exactly the name asked for. */
  lemma UuidRoundTrip(ps: seq<Profile>, connection: string)
    requires forall p <- ps :: p.Printable()
    ensures FirstUuid(SplitLines(PrintAll(Terminated(ProfileText, ps))), connection) ==
            var n := FirstMatch(ps, connection); if n < |ps| then Some(ps[n].uuid) else None
  {
    forall i | 0 <= i < |ps| ensures '\n' !in ProfileText(ps[i]) {
      ProfileIsLine(ps[i]);
    }
    SplitOfPrint(Terminated(ProfileText, ps));
    FirstProfile(ps, connection);
  }

  lemma {:induction false} FirstProfile(ps: seq<Profile>, connection: string)
    requires forall p <- ps :: p.Printable()
    ensures FirstUuid(Terminated(ProfileText, ps), connection) ==
            var n := FirstMatch(ps, connection); if n < |ps| then Some(ps[n].uuid) else None
  {
    if ps != [] {
      ProfileParses(ps[0], connection);
      assert Terminated(ProfileText, ps)[1..] == Terminated(ProfileText, ps[1..]);
      FirstProfile(ps[1..], connection);
    }
  }

  // ---------------------------------------------------------------------
  // Endpoints
  // ---------------------------------------------------------------------

  predicate IsDigit(c: char) {
    '0' <= c <= '9'
  }

  predicate AllDigits(s: string) {
    forall i :: 0 <= i < |s| ==> IsDigit(s[i])
  }

  function Value(s: string): nat
    requires AllDigits(s)
  {
    if s == "" then 0 else 10 * Value(s[..|s| - 1]) + (s[|s| - 1] - '0') as nat
  }

  /** Text that parses as an unsigned 16-bit number; a leading plus sign is allowed. */
  predicate IsU16(s: string) {
    var digits := if s != "" && s[0] == '+' then s[1..] else s;
    digits != "" && AllDigits(digits) && Value(digits) < 0x1_0000
  }

  lemma {:induction false} DecimalValue(n: nat)
    ensures AllDigits(Decimal(n)) && Value(Decimal(n)) == n
  {
    var d := Decimal(n);
    if n >= 10 {
      DecimalValue(n / 10);
      assert d[..|d| - 1] == Decimal(n / 10);
    } else {
      assert d[..0] == "";
    }
  }

  function CountColons(s: string): nat {
    if s == "" then 0 else (if s[0] == ':' then 1 else 0) + CountColons(s[1..])
  }

  function EndpointHost(endpoint: string): string {
    var e := Trim(endpoint);
    if e != "" && e[0] == '[' then
      match SplitOnce(e[1..], ']')
      case Some((inner, _)) => inner
      case None => e[1..]
    else if CountColons(e) == 1 then
      match RSplitOnce(e, ':')
      case Some((host, port)) => if IsU16(port) then host else e
      case None => e
    else e
  }

  /** Text that neither white space nor a comma interrupts. */
  predicate PlainText(s: string) {
    forall i :: 0 <= i < |s| ==> !IsSpace(s[i]) && s[i] != ','
  }

  /** The endpoints NetworkManager writes: bracketed, named, or a bare IPv6 address. */
  datatype Endpoint =
    | Bracketed(host: string, port: Option<nat>)
    | Named(host: string, port: Option<nat>)
    | BareV6(host: string)
  {
    predicate Printable() {
      && host != "" && PlainText(host)
      && (!BareV6? && port.Some? ==> port.value < 0x1_0000)
      && match this
         case Bracketed(_, _) => ']' !in host
         case Named(_, _) => ':' !in host && host[0] != '['
         case BareV6(_) => CountColons(host) >= 2 && host[0] != '['
    }

    function Text(): string {
      match this
      case Bracketed(h, p) => "[" + h + "]" + PortText(p)
      case Named(h, p) => h + PortText(p)
      case BareV6(h) => h
    }
  }

  function PortText(p: Option<nat>): string {
    if p.None? then "" else ":" + Decimal(p.value)
  }

  lemma {:induction false} CountColonsConcat(a: string, b: string)
    ensures CountColons(a + b) == CountColons(a) + CountColons(b)
  {
    if a == "" {
      assert a + b == b;
    } else {
      assert (a + b)[1..] == a[1..] + b;
      CountColonsConcat(a[1..], b);
    }
  }

  lemma {:induction false} NoColons(s: string)
    requires ':' !in s
    ensures CountColons(s) == 0
  {
    if s != "" {
      NoColons(s[1..]);
    }
  }

  lemma PlainConcat(a: string, b: string)
    requires PlainText(a) && PlainText(b)
    ensures PlainText(a + b)
  {
  }

  lemma PortPlain(p: Option<nat>)
    ensures PlainText(PortText(p))
  {
    if p.Some? {
      DecimalValue(p.value);
      PlainConcat(":", Decimal(p.value));
    }
  }

  lemma EndpointPlain(e: Endpoint)
    requires e.Printable()
    ensures PlainText(e.Text()) && e.Text() != ""
  {
    if !e.BareV6? {
      PortPlain(e.port);
    }
    if e.Bracketed? {
      PlainConcat("[", e.host);
      PlainConcat("[" + e.host, "]");
      PlainConcat("[" + e.host + "]", PortText(e.port));
    } else if e.Named? {
      PlainConcat(e.host, PortText(e.port));
    }
  }

  /** Bracketed hosts, with or without a port. */
  lemma BracketedHost(host: string, port: Option<nat>)
    requires Bracketed(host, port).Printable()
    ensures EndpointHost(Bracketed(host, port).Text()) == host
  {
    var t := Bracketed(host, port).Text();
    EndpointPlain(Bracketed(host, port));
    TrimIdentity(t);
    assert t[1..] == host + [']'] + PortText(port);
    SplitOnceAt(host, ']', PortText(port));
  }

  lemma {:induction false} DecimalPort(n: nat)
    requires n < 0x1_0000
    ensures IsU16(Decimal(n)) && ':' !in Decimal(n)
  {
    DecimalValue(n);
    assert Decimal(n)[0] != '+';
  }

  lemma OneColon(host: string, port: string)
    requires ':' !in host && ':' !in port
    ensures CountColons(host + ":" + port) == 1
  {
    NoColons(host);
    NoColons(port);
    CountColonsConcat(host, ":");
    CountColonsConcat(host + ":", port);
    assert CountColons(":") == 1;
  }

  lemma NamedHost(host: string, port: Option<nat>)
    requires Named(host, port).Printable()
    ensures EndpointHost(Named(host, port).Text()) == host
  {
    var t := Named(host, port).Text();
    EndpointPlain(Named(host, port));
    TrimIdentity(t);
    if port.Some? {
      var digits := Decimal(port.value);
      DecimalPort(port.value);
      assert t == host + ":" + digits;
      OneColon(host, digits);
      RSplitOnceAt(host, ':', digits);
    } else {
      NoColons(host);
      assert t == host;
    }
  }

  lemma DecimalPortIff(n: nat)
    ensures IsU16(Decimal(n)) <==> n < 0x1_0000
  {
    DecimalValue(n);
    assert Decimal(n)[0] != '+';
  }

  /** After a name, only a number that can be a port is cut off. */
  lemma PortCutIff(host: string, n: nat)
    requires host != "" && PlainText(host) && ':' !in host && host[0] != '['
    ensures EndpointHost(host + ":" + Decimal(n)) == if n < 0x1_0000 then host else host + ":" + Decimal(n)
  {
    var t := host + ":" + Decimal(n);
    DecimalValue(n);
    PlainConcat(host, ":");
    PlainConcat(host + ":", Decimal(n));
    TrimIdentity(t);
    DecimalPortIff(n);
    OneColon(host, Decimal(n));
    RSplitOnceAt(host, ':', Decimal(n));
  }

  /** A bracket that is never closed is dropped, and all after it is the host. */
  lemma OpenBracket(rest: string)
    requires PlainText(rest) && ']' !in rest
    ensures EndpointHost("[" + rest) == rest
  {
    PlainConcat("[", rest);
    TrimIdentity("[" + rest);
    assert ("[" + rest)[1..] == rest;
    assert forall i :: 0 <= i < |rest| ==> rest[i] in rest;
  }

  /** The parser finds the host in every endpoint that can be written. */
  lemma EndpointRoundTrip(e: Endpoint)
    requires e.Printable()
    ensures EndpointHost(e.Text()) == e.host
  {
    match e
    case Bracketed(h, p) => BracketedHost(h, p);
    case Named(h, p) => NamedHost(h, p);
    case BareV6(h) => TrimIdentity(h);
  }

  /** White space around an endpoint does not matter. */
  lemma EndpointPadded(e: Endpoint)
    requires e.Printable()
    ensures EndpointHost(" " + e.Text() + " ") == e.host
  {
    EndpointPlain(e);
    EndpointRoundTrip(e);
    TrimPadded(e.Text());
    TrimIdentity(e.Text());
  }

  // ---------------------------------------------------------------------
  // WireGuard peers
  // ---------------------------------------------------------------------

  const PEERS_PREFIX := "wireguard.peers:"
  const ENDPOINT_PREFIX := "endpoint="

  function HostsInWord(w: string): seq<string> {
    if ENDPOINT_PREFIX <= w then
      var host := EndpointHost(w[|ENDPOINT_PREFIX|..]);
      if host != "" then [host] else []
    else []
  }

  function HostsInPiece(piece: string): seq<string> {
    Gather(HostsInWord, Words(piece))
  }

  function HostsOnLine(l: RawLine): seq<string> {
    var line := LineText(l);
    if PEERS_PREFIX <= line then Gather(HostsInPiece, SplitOn(line[|PEERS_PREFIX|..], ',')) else []
  }

  datatype VpnEndpoint = Address(text: string) | Hostname(text: string)

  /** An endpoint host is an address if it parses as one; no name is resolved. */
  function ClassifyEndpointHost(parses: string -> bool, host: string): VpnEndpoint {
    if parses(host) then Address(host) else Hostname(host)
  }

  function Classified(parses: string -> bool, hosts: seq<string>): (r: seq<VpnEndpoint>)
    ensures |r| == |hosts| && forall i :: 0 <= i < |hosts| ==> r[i] == ClassifyEndpointHost(parses, hosts[i])
  {
    seq(|hosts|, i requires 0 <= i < |hosts| => ClassifyEndpointHost(parses, hosts[i]))
  }

  lemma ClassifiedConcat(parses: string -> bool, a: seq<string>, b: seq<string>)
    ensures Classified(parses, a + b) == Classified(parses, a) + Classified(parses, b)
  {
  }

  method PeerHosts(peer: string) returns (hosts: seq<string>)
    ensures hosts == HostsInPiece(peer)
  {
    hosts := [];
    var ws := Words(peer);
    for i := 0 to |ws|
      invariant hosts == Gather(HostsInWord, ws[..i])
    {
      GatherNext(HostsInWord, ws, i);
      if ENDPOINT_PREFIX <= ws[i] {
        var host := EndpointHost(ws[i][|ENDPOINT_PREFIX|..]);
        if host != "" {
          hosts := hosts + [host];
        }
      }
    }
    assert ws[..|ws|] == ws;
  }

  method PeersHosts(value: string) returns (hosts: seq<string>)
    ensures hosts == Gather(HostsInPiece, SplitOn(value, ','))
  {
    hosts := [];
    var pieces := SplitOn(value, ',');
    for i := 0 to |pieces|
      invariant hosts == Gather(HostsInPiece, pieces[..i])
    {
      GatherNext(HostsInPiece, pieces, i);
      var more := PeerHosts(pieces[i]);
      hosts := hosts + more;
    }
    assert pieces[..|pieces|] == pieces;
  }

  /** The endpoints of all peers, each classified as an address or a name. */
  method ParseWireguardEndpoints(stdout: string, parses: string -> bool) returns (endpoints: seq<VpnEndpoint>)
    ensures endpoints == Classified(parses, Gather(HostsOnLine, SplitLines(stdout)))
  {
    endpoints := [];
    var lines := SplitLines(stdout);
    for i := 0 to |lines|
      invariant endpoints == Classified(parses, Gather(HostsOnLine, lines[..i]))
    {
      GatherNext(HostsOnLine, lines, i);
      ClassifiedConcat(parses, Gather(HostsOnLine, lines[..i]), HostsOnLine(lines[i]));
      var line := LineText(lines[i]);
      if PEERS_PREFIX <= line {
        var more := PeersHosts(line[|PEERS_PREFIX|..]);
        endpoints := endpoints + Classified(parses, more);
      }
    }
    assert lines[..|lines|] == lines;
  }

  /** A peer: its attributes in any order, with or without an endpoint among them. */
  datatype Peer = Peer(before: seq<string>, endpoint: Option<Endpoint>, after: seq<string>) {
    predicate Printable() {
      && (forall w <- before + after :: IsAttribute(w))
      && (endpoint.Some? ==> endpoint.value.Printable())
    }

    function EndpointWords(): seq<string> {
      if endpoint.Some? then [ENDPOINT_PREFIX + endpoint.value.Text()] else []
    }

    function Attributes(): seq<string> {
      before + EndpointWords() + after
    }

    function Hosts(): seq<string> {
      if endpoint.Some? then [endpoint.value.host] else []
    }
  }

  predicate PlainWord(w: string) {
    w != "" && PlainText(w)
  }

  /** Any attribute of a peer other than its endpoint. */
  predicate IsAttribute(w: string) {
    PlainWord(w) && !(ENDPOINT_PREFIX <= w)
  }

  function PrintPeers(peers: seq<Peer>): string {
    if peers == [] then ""
    else if |peers| == 1 then JoinWords(peers[0].Attributes())
    else JoinWords(peers[0].Attributes()) + "," + (" " + PrintPeers(peers[1..]))
  }

  function AllHosts(peers: seq<Peer>): seq<string> {
    if peers == [] then [] else peers[0].Hosts() + AllHosts(peers[1..])
  }

  /** An attribute without a host gives no endpoint. */
  lemma EmptyEndpoint()
    ensures HostsInWord(ENDPOINT_PREFIX) == [] && HostsInWord(ENDPOINT_PREFIX + "[]:1") == []
  {
    var w := ENDPOINT_PREFIX + "[]:1";
    assert ENDPOINT_PREFIX[|ENDPOINT_PREFIX|..] == "" && w[|ENDPOINT_PREFIX|..] == "[]:1";
    TrimIdentity("");
    TrimIdentity("[]:1");
    assert "[]:1"[1..] == "" + [']'] + ":1";
    SplitOnceAt("", ']', ":1");
  }

  lemma EndpointWord(e: Endpoint)
    requires e.Printable()
    ensures HostsInWord(ENDPOINT_PREFIX + e.Text()) == [e.host]
  {
    var w := ENDPOINT_PREFIX + e.Text();
    EndpointRoundTrip(e);
    assert w[|ENDPOINT_PREFIX|..] == e.Text();
  }

  lemma EndpointFound(p: Peer)
    requires p.Printable()
    ensures forall w <- p.EndpointWords() :: PlainWord(w)
    ensures Gather(HostsInWord, p.EndpointWords()) == p.Hosts()
  {
    if p.endpoint.Some? {
      var e := p.endpoint.value;
      EndpointPlain(e);
      PlainConcat(ENDPOINT_PREFIX, e.Text());
      EndpointWord(e);
      GatherOne(HostsInWord, ENDPOINT_PREFIX + e.Text());
    }
  }

  lemma AttributesGiveNothing(ws: seq<string>)
    requires forall w <- ws :: IsAttribute(w)
    ensures Gather(HostsInWord, ws) == []
  {
    GatherNothing(HostsInWord, ws);
  }

  lemma PeerWords(p: Peer)
    requires p.Printable()
    ensures forall w <- p.Attributes() :: PlainWord(w)
    ensures Gather(HostsInWord, p.Attributes()) == p.Hosts()
  {
    EndpointFound(p);
    assert forall w <- p.before :: w in p.before + p.after;
    assert forall w <- p.after :: w in p.before + p.after;
    AttributesGiveNothing(p.before);
    AttributesGiveNothing(p.after);
    GatherConcat(HostsInWord, p.before + p.EndpointWords(), p.after);
    GatherConcat(HostsInWord, p.before, p.EndpointWords());
  }

  lemma {:induction false} JoinKeepsOut(ws: seq<string>, c: char)
    requires c != ' ' && (IsSpace(c) || c == ',') && forall w <- ws :: PlainWord(w)
    ensures c !in JoinWords(ws)
  {
    if ws != [] {
      assert ws[0] in ws && forall w <- ws[1..] :: w in ws;
      JoinKeepsOut(ws[1..], c);
    }
  }

  /** One peer's text, possibly after the space that follows a comma. */
  lemma PeerPiece(p: Peer, gap: string)
    requires p.Printable() && (gap == "" || gap == " ")
    ensures HostsInPiece(gap + JoinWords(p.Attributes())) == p.Hosts()
    ensures ',' !in gap + JoinWords(p.Attributes())
  {
    var joined := JoinWords(p.Attributes());
    PeerWords(p);
    WordsOfJoin(p.Attributes());
    JoinKeepsOut(p.Attributes(), ',');
    if gap == " " {
      WordsSkip(joined);
    } else {
      assert gap + joined == joined;
    }
  }

  lemma PiecesCons(text: string, tail: string)
    requires ',' !in text
    ensures Gather(HostsInPiece, SplitOn(text + "," + tail, ',')) ==
            HostsInPiece(text) + Gather(HostsInPiece, SplitOn(tail, ','))
  {
    SplitOnCons(text, ',', tail);
    GatherConcat(HostsInPiece, [text], SplitOn(tail, ','));
    GatherOne(HostsInPiece, text);
  }

  lemma OnePiece(text: string)
    requires ',' !in text
    ensures Gather(HostsInPiece, SplitOn(text, ',')) == HostsInPiece(text)
  {
    SplitOnNone(text, ',');
    GatherOne(HostsInPiece, text);
  }

  lemma Regroup(a: string, b: string, c: string, d: string)
    ensures a + (b + c + d) == a + b + c + d
  {
  }

  lemma PrintCons(peers: seq<Peer>, gap: string)
    requires |peers| > 1
    ensures gap + PrintPeers(peers) ==
            gap + JoinWords(peers[0].Attributes()) + "," + (" " + PrintPeers(peers[1..]))
  {
    Regroup(gap, JoinWords(peers[0].Attributes()), ",", " " + PrintPeers(peers[1..]));
  }

  lemma {:induction false} PeersParse(peers: seq<Peer>, gap: string)
    requires (forall p <- peers :: p.Printable()) && (gap == "" || gap == " ")
    ensures Gather(HostsInPiece, SplitOn(gap + PrintPeers(peers), ',')) == AllHosts(peers)
  {
    if peers == [] {
      NoPeers(gap);
    } else {
      var text, rest := gap + JoinWords(peers[0].Attributes()), peers[1..];
      PeerPiece(peers[0], gap);
      if rest == [] {
        OnePiece(text);
      } else {
        PrintCons(peers, gap);
        PeersParse(rest, " ");
        PiecesCons(text, " " + PrintPeers(rest));
      }
    }
  }

  lemma SeparatedKeepsOut(a: string, b: string, c: char)
    requires c !in a && c !in b && c != ' ' && c != ','
    ensures c !in a + "," + (" " + b)
  {
  }

  lemma {:induction false} PeersKeepOut(peers: seq<Peer>, c: char)
    requires (forall p <- peers :: p.Printable()) && c != ' ' && IsSpace(c)
    ensures c !in PrintPeers(peers)
  {
    if peers != [] {
      PeerWords(peers[0]);
      JoinKeepsOut(peers[0].Attributes(), c);
      if |peers| > 1 {
        PeersKeepOut(peers[1..], c);
        SeparatedKeepsOut(JoinWords(peers[0].Attributes()), PrintPeers(peers[1..]), c);
      }
    }
  }

  lemma NoPeers(gap: string)
    requires gap == "" || gap == " "
    ensures Gather(HostsInPiece, SplitOn(gap + "", ',')) == []
  {
    assert gap + "" == gap;
    SplitOnNone(gap, ',');
    GatherOne(HostsInPiece, gap);
    WordsSkip("");
    assert " " + "" == " ";
  }

  lemma PeersLine(peers: seq<Peer>)
    requires forall p <- peers :: p.Printable()
    ensures HostsOnLine(RawLine(PEERS_PREFIX + PrintPeers(peers), true)) == AllHosts(peers)
  {
    var body := PrintPeers(peers);
    var line := PEERS_PREFIX + body;
    PeersParse(peers, "");
    PeersKeepOut(peers, '\r');
    assert line[|line| - 1] in line;
    assert line[|PEERS_PREFIX|..] == "" + body;
  }

  /**
   Parsing a printed peer list recovers every endpoint host, in order: addresses with
   brackets, names with ports, bare IPv6 addresses, and peers without any endpoint.
   */
  lemma WireguardRoundTrip(peers: seq<Peer>)
    requires forall p <- peers :: p.Printable()
    ensures Gather(HostsOnLine, SplitLines(PEERS_PREFIX + PrintPeers(peers) + "\n")) == AllHosts(peers)
  {
    var raw := RawLine(PEERS_PREFIX + PrintPeers(peers), true);
    PeersLine(peers);
    PeersKeepOut(peers, '\n');
    SplitOfPrint([raw]);
    assert PrintAll([raw]) == raw.text + "\n" by {
      assert [raw][1..] == [];
    }
    GatherOne(HostsOnLine, raw);
  }
}
