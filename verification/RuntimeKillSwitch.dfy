/**
 The runtime kill switch on the iptables backend: the script that builds its chain,
 the exact set of packets it lets out, safety of every half-built stage, and what
 disabling leaves behind.
 */
module RuntimeKillSwitch {
  import opened Cidr
  import opened PacketFilter
  import opened RuleBlocks
  import opened ChainTeardown

  const CHAIN_NAME := "SHROUD_KILLSWITCH"
  const CLEANUP_LIMIT: nat := 100

  datatype DnsMode = TunnelDns | StrictDns | LocalhostDns | AnyDns
  datatype Ipv6Mode = BlockV6 | TunnelV6 | OffV6

  /** The configured blocklist holds the entries that parse as IPv4 addresses. */
  datatype Config = Config(dnsMode: DnsMode, blockDoh: bool, customDoh: seq<nat>, ipv6Mode: Ipv6Mode)

  function Ip(a: nat, b: nat, c: nat, d: nat): nat {
    ((a * 256 + b) * 256 + c) * 256 + d
  }

  const DOH_PROVIDERS: seq<nat> :=
    [Ip(1, 1, 1, 1), Ip(1, 0, 0, 1), Ip(8, 8, 8, 8), Ip(8, 8, 4, 4), Ip(9, 9, 9, 9), Ip(149, 112, 112, 112),
     Ip(208, 67, 222, 222), Ip(208, 67, 220, 220), Ip(94, 140, 14, 14), Ip(94, 140, 15, 15),
     Ip(185, 228, 168, 168), Ip(185, 228, 169, 168), Ip(8, 26, 56, 26), Ip(8, 20, 247, 20)]

  const CONNTRACK := Rule([ConntrackEstablished], Accept)
  const TUN := Rule([OutIfacePrefix("tun")], Accept)
  const TAP := Rule([OutIfacePrefix("tap")], Accept)
  const WG := Rule([OutIfacePrefix("wg")], Accept)
  const DHCP_SERVER := Rule(ToPort(Udp, 67, 67), Accept)
  const DHCP_CLIENT := Rule([IsProtocol(Udp), SPort(68, 68)], Accept)
  const LOG_ALL := Rule([], Log)

  predicate DnsIsTunneled(mode: DnsMode) {
    mode.TunnelDns? || mode.StrictDns?
  }

  /** The resolvers of localhost mode; the last one is an IPv6 address. */
  const LOCAL_RESOLVERS: seq<Match> :=
    [Dst(Cidr(Ip(127, 0, 0, 1), 32), 32), Dst(Cidr(Ip(127, 0, 0, 53), 32), 32), Dst(Cidr(1, 128), 128)]

  function LocalDnsRules(resolvers: seq<Match>): seq<Rule> {
    if resolvers == [] then []
    else
      [Rule([resolvers[0]] + ToPort(Udp, 53, 53), Accept), Rule([resolvers[0]] + ToPort(Tcp, 53, 53), Accept)]
      + LocalDnsRules(resolvers[1..])
  }

  function DnsRules(mode: DnsMode): seq<Rule> {
    match mode
    case LocalhostDns => LocalDnsRules(LOCAL_RESOLVERS) + DNS_BLOCK
    case AnyDns => [Rule(ToPort(Udp, 53, 53), Accept), Rule(ToPort(Tcp, 53, 53), Accept)]
    case _ => DnsAllowAll(["tun", "wg", "tap"]) + DNS_BLOCK
  }

  function DohRule(ip: nat): Rule {
    Rule([Dst(Cidr(ip, 32), 32)] + ToPort(Tcp, 443, 443), Drop)
  }

  function DohRulesFor(ips: seq<nat>): seq<Rule> {
    if ips == [] then [] else [DohRule(ips[0])] + DohRulesFor(ips[1..])
  }

  /** Addresses blocked on the HTTPS port. */
  function BlockedResolvers(c: Config): seq<nat> {
    if c.blockDoh && DnsIsTunneled(c.dnsMode) then DOH_PROVIDERS + c.customDoh else []
  }

  function ServerSubnets(servers: seq<nat>): (r: seq<Cidr>)
    ensures |r| == |servers| && forall i :: 0 <= i < |servers| ==> r[i] == Cidr(servers[i], 32)
  {
    seq(|servers|, i requires 0 <= i < |servers| => Cidr(servers[i], 32))
  }

  /** The chain: `servers` are the detected IPv4 VPN servers, `subnets` the detected LAN. */
  function RuntimeRules(c: Config, servers: seq<nat>, subnets: seq<Cidr>): seq<Rule> {
    [LOOPBACK, CONNTRACK] + DnsRules(c.dnsMode) + [TUN, TAP, WG] + DohRulesFor(BlockedResolvers(c))
    + LanRules(ServerSubnets(servers), 32) + LanRules(ValidSubnets(subnets), 32)
    + [DHCP_SERVER, DHCP_CLIENT, LOG_ALL, DROP_ALL]
  }

  // ---------------------------------------------------------------------
  // What still gets out
  // ---------------------------------------------------------------------

  predicate IsDhcp(p: Packet) {
    p.protocol.Udp? && (p.dport == 67 || p.sport == 68)
  }

  predicate IsDoh(p: Packet, ips: seq<nat>) {
    p.protocol.Tcp? && p.dport == 443 && p.dst in ips
  }

  /** HTTPS to a resolver that the configuration blocks. */
  predicate IsBlockedDoh(c: Config, p: Packet) {
    && c.blockDoh && (c.dnsMode.TunnelDns? || c.dnsMode.StrictDns?)
    && p.protocol.Tcp? && p.dport == 443 && (p.dst in DOH_PROVIDERS || p.dst in c.customDoh)
  }

  /** The packets the runtime switch lets out. */
  predicate RuntimeAllows(c: Config, servers: seq<nat>, subnets: seq<Cidr>, p: Packet) {
    if p.outIface == "lo" || p.established then true
    else if IsDns(p) then OnTunnel(p) || c.dnsMode.AnyDns?
    else if IsDnsOverTls(p) && (c.dnsMode.TunnelDns? || c.dnsMode.StrictDns?) then false
    else
      || OnTunnel(p)
      || (!IsBlockedDoh(c, p) &&
          (p.dst in servers || InSome(ValidSubnets(subnets), p.dst, 32) || IsDhcp(p)))
  }

  lemma TwoVerdict(t: Table, a: Rule, b: Rule, p: Packet, d: nat)
    requires !a.target.Jump? && !b.target.Jump?
    ensures Walk(t, [a, b], p, d) ==
            if Walk(t, [a], p, d) == Continue then Walk(t, [b], p, d) else Walk(t, [a], p, d)
  {
    assert [a, b] == [a] + [b];
    WalkConcat(t, [a], [b], p, d);
  }

  lemma HeadVerdict(t: Table, p: Packet, d: nat)
    ensures Walk(t, [LOOPBACK, CONNTRACK], p, d) == if p.outIface == "lo" || p.established then Accepted else Continue
  {
    TwoVerdict(t, LOOPBACK, CONNTRACK, p, d);
    WalkOne(t, LOOPBACK, p, d);
    WalkOne(t, CONNTRACK, p, d);
    OneMatch(p, OutIface("lo"));
    OneMatch(p, ConntrackEstablished);
  }

  lemma DnsVerdict(t: Table, mode: DnsMode, p: Packet, d: nat)
    requires !mode.LocalhostDns?
    ensures Walk(t, DnsRules(mode), p, d) ==
            if IsDns(p) then (if OnTunnel(p) || mode.AnyDns? then Accepted else Dropped)
            else if IsDnsOverTls(p) && DnsIsTunneled(mode) then Dropped
            else Continue
  {
    if DnsIsTunneled(mode) {
      var prefixes := ["tun", "wg", "tap"];
      DnsAllowAllVerdict(t, prefixes, p, d);
      DnsBlockVerdict(t, p, d);
      WalkConcat(t, DnsAllowAll(prefixes), DNS_BLOCK, p, d);
      assert prefixes[0] == "tun" && prefixes[1] == "wg" && prefixes[2] == "tap";
    } else {
      var udp, tcp := Rule(ToPort(Udp, 53, 53), Accept), Rule(ToPort(Tcp, 53, 53), Accept);
      TwoVerdict(t, udp, tcp, p, d);
      WalkOne(t, udp, p, d);
      WalkOne(t, tcp, p, d);
      PortMatch(p, Udp, 53, 53);
      PortMatch(p, Tcp, 53, 53);
    }
  }

  lemma TunnelVerdict(t: Table, p: Packet, d: nat)
    ensures Walk(t, [TUN, TAP, WG], p, d) == if OnTunnel(p) then Accepted else Continue
  {
    assert [TUN, TAP, WG] == [TUN, TAP] + [WG];
    WalkConcat(t, [TUN, TAP], [WG], p, d);
    TwoVerdict(t, TUN, TAP, p, d);
    WalkOne(t, TUN, p, d);
    WalkOne(t, TAP, p, d);
    WalkOne(t, WG, p, d);
    OneMatch(p, OutIfacePrefix("tun"));
    OneMatch(p, OutIfacePrefix("tap"));
    OneMatch(p, OutIfacePrefix("wg"));
  }

  lemma HostMatch(ip: nat, x: nat)
    ensures InSubnet(Cidr(ip, 32), x, 32) <==> x == ip
  {
  }

  lemma {:induction false} DohVerdict(t: Table, ips: seq<nat>, p: Packet, d: nat)
    ensures Walk(t, DohRulesFor(ips), p, d) == if IsDoh(p, ips) then Dropped else Continue
  {
    if ips != [] {
      DohVerdict(t, ips[1..], p, d);
      WalkConcat(t, [DohRule(ips[0])], DohRulesFor(ips[1..]), p, d);
      WalkOne(t, DohRule(ips[0]), p, d);
      PrefixedMatch(p, Dst(Cidr(ips[0], 32), 32), ToPort(Tcp, 443, 443));
      PortMatch(p, Tcp, 443, 443);
      HostMatch(ips[0], p.dst);
      assert ips == [ips[0]] + ips[1..];
    }
  }

  lemma ServerVerdict(t: Table, servers: seq<nat>, p: Packet, d: nat)
    ensures Walk(t, LanRules(ServerSubnets(servers), 32), p, d) == if p.dst in servers then Accepted else Continue
  {
    var subnets := ServerSubnets(servers);
    LanVerdict(t, subnets, 32, p, d);
    if p.dst in servers {
      var i :| 0 <= i < |servers| && servers[i] == p.dst;
      HostMatch(servers[i], p.dst);
      assert subnets[i] in subnets;
    }
    forall c | c in subnets && InSubnet(c, p.dst, 32) ensures p.dst in servers {
      var i :| 0 <= i < |subnets| && subnets[i] == c;
      HostMatch(servers[i], p.dst);
    }
  }

  lemma TailVerdict(t: Table, p: Packet, d: nat)
    ensures Walk(t, [DHCP_SERVER, DHCP_CLIENT, LOG_ALL, DROP_ALL], p, d) == if IsDhcp(p) then Accepted else Dropped
  {
    assert [DHCP_SERVER, DHCP_CLIENT, LOG_ALL, DROP_ALL] == [DHCP_SERVER, DHCP_CLIENT] + [LOG_ALL, DROP_ALL];
    WalkConcat(t, [DHCP_SERVER, DHCP_CLIENT], [LOG_ALL, DROP_ALL], p, d);
    TwoVerdict(t, DHCP_SERVER, DHCP_CLIENT, p, d);
    TwoVerdict(t, LOG_ALL, DROP_ALL, p, d);
    WalkOne(t, DHCP_SERVER, p, d);
    WalkOne(t, DHCP_CLIENT, p, d);
    WalkOne(t, LOG_ALL, p, d);
    WalkOne(t, DROP_ALL, p, d);
    PortMatch(p, Udp, 67, 67);
    assert DHCP_CLIENT.matches == [IsProtocol(Udp)] + [SPort(68, 68)];
    PrefixedMatch(p, IsProtocol(Udp), [SPort(68, 68)]);
    OneMatch(p, SPort(68, 68));
  }

  /** The chain decides every packet, and accepts exactly the allowed ones. In localhost mode it is never built. */
  lemma RuntimeChainVerdict(t: Table, c: Config, servers: seq<nat>, subnets: seq<Cidr>, p: Packet, d: nat)
    requires !c.dnsMode.LocalhostDns?
    ensures Walk(t, RuntimeRules(c, servers, subnets), p, d) ==
            if RuntimeAllows(c, servers, subnets, p) then Accepted else Dropped
  {
    var dns, tunnels, doh := DnsRules(c.dnsMode), [TUN, TAP, WG], DohRulesFor(BlockedResolvers(c));
    var server, lan := LanRules(ServerSubnets(servers), 32), LanRules(ValidSubnets(subnets), 32);
    var tail := [DHCP_SERVER, DHCP_CLIENT, LOG_ALL, DROP_ALL];
    var b1 := [LOOPBACK, CONNTRACK] + dns;
    WalkConcat(t, [LOOPBACK, CONNTRACK], dns, p, d);
    WalkConcat(t, b1, tunnels, p, d);
    WalkConcat(t, b1 + tunnels, doh, p, d);
    WalkConcat(t, b1 + tunnels + doh, server, p, d);
    WalkConcat(t, b1 + tunnels + doh + server, lan, p, d);
    WalkConcat(t, b1 + tunnels + doh + server + lan, tail, p, d);
    HeadVerdict(t, p, d);
    DnsVerdict(t, c.dnsMode, p, d);
    TunnelVerdict(t, p, d);
    DohVerdict(t, BlockedResolvers(c), p, d);
    ServerVerdict(t, servers, p, d);
    LanVerdict(t, ValidSubnets(subnets), 32, p, d);
    TailVerdict(t, p, d);
  }

  // ---------------------------------------------------------------------
  // Building the chain: no traffic ever meets a half-built one
  // ---------------------------------------------------------------------

  /** The script: create the chain, fill it, and only then direct traffic to it. */
  function EnableScript(rules: seq<Rule>): (s: seq<Command>)
    ensures |s| == |rules| + 2
  {
    [NewChain(CHAIN_NAME)] + seq(|rules|, i requires 0 <= i < |rules| => AppendRule(CHAIN_NAME, rules[i]))
    + [InsertRule(OUTPUT, 1, JumpTo(CHAIN_NAME))]
  }

  /** The table with the runtime switch on. */
  function RuntimeEnabled(t: Table, rules: seq<Rule>): Table
    requires OUTPUT in t
  {
    t[CHAIN_NAME := rules][OUTPUT := [JumpTo(CHAIN_NAME)] + t[OUTPUT]]
  }

  /** The table after `k` commands, in closed form. */
  function Stage(t: Table, rules: seq<Rule>, k: nat): Table
    requires OUTPUT in t && k <= |rules| + 2
  {
    if k == 0 then t
    else if k <= |rules| + 1 then t[CHAIN_NAME := rules[..k - 1]]
    else RuntimeEnabled(t, rules)
  }

  lemma StageStep(t: Table, rules: seq<Rule>, k: nat)
    requires OUTPUT in t && CHAIN_NAME !in t && JumpFree(rules) && k < |rules| + 2
    ensures Can(Stage(t, rules, k), EnableScript(rules)[k])
    ensures Do(Stage(t, rules, k), EnableScript(rules)[k]) == Stage(t, rules, k + 1)
  {
    if 1 <= k <= |rules| {
      assert rules[k - 1] in rules;
      assert rules[..k - 1] + [rules[k - 1]] == rules[..k];
    } else if k == |rules| + 1 {
      assert rules[..|rules|] == rules;
      assert t[OUTPUT][..0] + [JumpTo(CHAIN_NAME)] + t[OUTPUT][0..] == [JumpTo(CHAIN_NAME)] + t[OUTPUT];
    }
  }

  /** Every stage of the script has that form, and its next command succeeds. */
  lemma {:induction false} StageIs(t: Table, rules: seq<Rule>, k: nat)
    requires OUTPUT in t && CHAIN_NAME !in t && JumpFree(rules) && k <= |rules| + 2
    ensures After(t, EnableScript(rules)[..k]) == Stage(t, rules, k)
    ensures k < |rules| + 2 ==> Can(After(t, EnableScript(rules)[..k]), EnableScript(rules)[k])
  {
    if k > 0 {
      var script := EnableScript(rules);
      StageIs(t, rules, k - 1);
      StageStep(t, rules, k - 1);
      assert script[..k][..k - 1] == script[..k - 1] && script[..k][k - 1] == script[k - 1];
    }
    if k < |rules| + 2 {
      StageStep(t, rules, k);
    }
  }

  /** Chains nobody refers to do not matter. */
  lemma {:induction false} WalkIgnores(t: Table, c: string, body: seq<Rule>, rules: seq<Rule>, p: Packet, d: nat)
    requires !Referenced(t, c) && !Refers(rules, c)
    ensures Walk(t[c := body], rules, p, d) == Walk(t, rules, p, d)
    decreases d, |rules|
  {
    if rules != [] {
      assert rules[0] in rules && rules == [rules[0]] + rules[1..];
      WalkIgnores(t, c, body, rules[1..], p, d);
      if rules[0].target.Jump? && d > 0 && rules[0].target.chain in t {
        var k := rules[0].target.chain;
        assert k != c && !Refers(t[k], c);
        WalkIgnores(t, c, body, t[k], p, d - 1);
      }
    }
  }

  lemma FinishedVerdict(t: Table, c: Config, servers: seq<nat>, subnets: seq<Cidr>, p: Packet, d: nat)
    requires OUTPUT in t && d >= 1 && !c.dnsMode.LocalhostDns?
    ensures var done := RuntimeEnabled(t, RuntimeRules(c, servers, subnets));
            Walk(done, done[OUTPUT], p, d) == if RuntimeAllows(c, servers, subnets, p) then Accepted else Dropped
  {
    var done := RuntimeEnabled(t, RuntimeRules(c, servers, subnets));
    RuntimeChainVerdict(done, c, servers, subnets, p, d - 1);
    FrontJumpDecides(done, CHAIN_NAME, t[OUTPUT], p, d);
  }

  lemma UnfinishedVerdict(t: Table, rules: seq<Rule>, k: nat, p: Packet, d: nat)
    requires OUTPUT in t && Closed(t) && CHAIN_NAME !in t && k <= |rules| + 1
    ensures var stage := Stage(t, rules, k); Walk(stage, stage[OUTPUT], p, d) == Walk(t, t[OUTPUT], p, d)
  {
    AbsentUnreferenced(t, CHAIN_NAME);
    if k > 0 {
      WalkIgnores(t, CHAIN_NAME, rules[..k - 1], t[OUTPUT], p, d);
    }
  }

  /**
   At every stage the script reaches, each packet is treated as before the switch or as
   the finished switch treats it; the change happens in the last step. In localhost mode
   that step is not reached.
   */
  lemma NoHalfBuiltChain(t: Table, c: Config, servers: seq<nat>, subnets: seq<Cidr>, k: nat, p: Packet, d: nat)
    requires OUTPUT in t && Closed(t) && CHAIN_NAME !in t && d >= 1
    requires k <= FirstFailure(32, t, EnableScript(RuntimeRules(c, servers, subnets)), 0)
    ensures var script := EnableScript(RuntimeRules(c, servers, subnets));
            var stage := After(t, script[..k]);
            && OUTPUT in stage
            && Walk(stage, stage[OUTPUT], p, d) ==
               if k < |script| then Walk(t, t[OUTPUT], p, d)
               else if RuntimeAllows(c, servers, subnets, p) then Accepted else Dropped
    ensures c.dnsMode.LocalhostDns? ==> k < |EnableScript(RuntimeRules(c, servers, subnets))|
  {
    var rules := RuntimeRules(c, servers, subnets);
    RuntimeRulesJumpFree(c, servers, subnets);
    RuntimeRulesFamily(c, servers, subnets);
    ScriptOutcome(t, rules);
    StageIs(t, rules, k);
    if k <= |rules| + 1 {
      UnfinishedVerdict(t, rules, k, p, d);
    } else {
      FinishedVerdict(t, c, servers, subnets, p, d);
    }
  }

  // Enabling over a switch that is on: the cleanup comes first

  /** The commands the cleanup runs on the IPv4 table; a delete that finds no jump fails. */
  function CleanupScript(): (s: seq<Command>)
    ensures |s| == CLEANUP_LIMIT + 2
  {
    seq(CLEANUP_LIMIT, _ => DeleteRule(OUTPUT, JumpTo(CHAIN_NAME))) + [FlushChain(CHAIN_NAME), DeleteChain(CHAIN_NAME)]
  }

  /** The stages of cleaning up a switch that was put on `t`. */
  function CleanupStage(t: Table, old_: seq<Rule>, k: nat): Table
    requires OUTPUT in t && k <= CLEANUP_LIMIT + 2
  {
    if k == 0 then RuntimeEnabled(t, old_)
    else if k <= CLEANUP_LIMIT then t[CHAIN_NAME := old_]
    else if k == CLEANUP_LIMIT + 1 then t[CHAIN_NAME := []]
    else t
  }

  lemma CleanupStageStep(t: Table, old_: seq<Rule>, k: nat)
    requires OUTPUT in t && Closed(t) && CHAIN_NAME !in t && k < CLEANUP_LIMIT + 2
    ensures Do(CleanupStage(t, old_, k), CleanupScript()[k]) == CleanupStage(t, old_, k + 1)
  {
    var jump, o := JumpTo(CHAIN_NAME), t[OUTPUT];
    AbsentUnreferenced(t, CHAIN_NAME);
    RemoveFirstFacts(o, jump);
    if k == 0 {
      assert ([jump] + o)[0] == jump && ([jump] + o)[1..] == o && jump in [jump] + o;
      assert RuntimeEnabled(t, old_)[OUTPUT := o] == t[CHAIN_NAME := old_];
    } else if k == CLEANUP_LIMIT + 1 {
      var stage := t[CHAIN_NAME := []];
      forall c | c in stage ensures !Refers(stage[c], CHAIN_NAME) {
        if c != CHAIN_NAME {
          assert !Refers(t[c], CHAIN_NAME);
        }
      }
      assert stage - {CHAIN_NAME} == t;
    }
  }

  lemma {:induction false} CleanupStageIs(t: Table, old_: seq<Rule>, k: nat)
    requires OUTPUT in t && Closed(t) && CHAIN_NAME !in t && k <= CLEANUP_LIMIT + 2
    ensures After(RuntimeEnabled(t, old_), CleanupScript()[..k]) == CleanupStage(t, old_, k)
  {
    if k > 0 {
      var script := CleanupScript();
      CleanupStageIs(t, old_, k - 1);
      CleanupStageStep(t, old_, k - 1);
      assert script[..k][..k - 1] == script[..k - 1] && script[..k][k - 1] == script[k - 1];
    }
  }

  /** Cleaning up and building anew. */
  function ReplaceScript(rules: seq<Rule>): seq<Command> {
    CleanupScript() + EnableScript(rules)
  }

  lemma ReplaceStage(t: Table, old_: seq<Rule>, rules: seq<Rule>, k: nat)
    requires OUTPUT in t && Closed(t) && CHAIN_NAME !in t && JumpFree(rules) && k <= |ReplaceScript(rules)|
    ensures After(RuntimeEnabled(t, old_), ReplaceScript(rules)[..k]) ==
            if k <= CLEANUP_LIMIT + 2 then CleanupStage(t, old_, k) else Stage(t, rules, k - CLEANUP_LIMIT - 2)
  {
    var first, n := CleanupScript(), CLEANUP_LIMIT + 2;
    if k <= n {
      assert ReplaceScript(rules)[..k] == first[..k];
      CleanupStageIs(t, old_, k);
    } else {
      assert ReplaceScript(rules)[..k] == first + EnableScript(rules)[..k - n];
      assert first[..n] == first;
      AfterConcat(RuntimeEnabled(t, old_), first, EnableScript(rules)[..k - n]);
      CleanupStageIs(t, old_, n);
      StageIs(t, rules, k - n);
    }
  }

  lemma BetweenSwitches(t: Table, old_: seq<Rule>, rules: seq<Rule>, k: nat, p: Packet, d: nat)
    requires OUTPUT in t && Closed(t) && CHAIN_NAME !in t && JumpFree(rules) && 1 <= k < |ReplaceScript(rules)|
    ensures var stage := After(RuntimeEnabled(t, old_), ReplaceScript(rules)[..k]);
            OUTPUT in stage && Walk(stage, stage[OUTPUT], p, d) == Walk(t, t[OUTPUT], p, d)
  {
    ReplaceStage(t, old_, rules, k);
    AbsentUnreferenced(t, CHAIN_NAME);
    if k <= CLEANUP_LIMIT + 1 {
      WalkIgnores(t, CHAIN_NAME, CleanupStage(t, old_, k)[CHAIN_NAME], t[OUTPUT], p, d);
    } else if k > CLEANUP_LIMIT + 2 {
      UnfinishedVerdict(t, rules, k - CLEANUP_LIMIT - 2, p, d);
    }
  }

  /**
   Enabling over a switch that is on, in every stage and for every packet: the old switch
   decides before the first command, the new one after the last, and in between every
   packet is treated as if there were no switch at all. In localhost mode the script stops
   before its last command.
   */
  lemma ReplaceWindow(t: Table, old_: seq<Rule>, c: Config, servers: seq<nat>, subnets: seq<Cidr>, k: nat, p: Packet, d: nat)
    requires OUTPUT in t && Closed(t) && CHAIN_NAME !in t && d >= 1
    requires k <= CLEANUP_LIMIT + 2 + StopsAt(RuntimeRules(c, servers, subnets))
    ensures var on, script := RuntimeEnabled(t, old_), ReplaceScript(RuntimeRules(c, servers, subnets));
            var stage := After(on, script[..k]);
            && OUTPUT in stage
            && Walk(stage, stage[OUTPUT], p, d) ==
               if k == 0 then Walk(on, on[OUTPUT], p, d)
               else if k < |script| then Walk(t, t[OUTPUT], p, d)
               else if RuntimeAllows(c, servers, subnets, p) then Accepted else Dropped
    ensures c.dnsMode.LocalhostDns? ==> k < |ReplaceScript(RuntimeRules(c, servers, subnets))|
  {
    var rules := RuntimeRules(c, servers, subnets);
    RuntimeRulesJumpFree(c, servers, subnets);
    RuntimeRulesFamily(c, servers, subnets);
    ReplaceStage(t, old_, rules, k);
    if 1 <= k < |ReplaceScript(rules)| {
      BetweenSwitches(t, old_, rules, k, p, d);
    } else if k > 0 {
      FinishedVerdict(t, c, servers, subnets, p, d);
    }
  }

  lemma {:induction false} LanRulesJumpFree(subnets: seq<Cidr>, bits: nat)
    ensures JumpFree(LanRules(subnets, bits))
  {
    if subnets != [] {
      LanRulesJumpFree(subnets[..|subnets| - 1], bits);
    }
  }

  lemma {:induction false} DohRulesJumpFree(ips: seq<nat>)
    ensures JumpFree(DohRulesFor(ips))
  {
    if ips != [] {
      DohRulesJumpFree(ips[1..]);
    }
  }

  lemma {:induction false} DnsAllowAllJumpFree(prefixes: seq<string>)
    ensures JumpFree(DnsAllowAll(prefixes))
  {
    if prefixes != [] {
      DnsAllowAllJumpFree(prefixes[..|prefixes| - 1]);
    }
  }

  lemma {:induction false} LocalDnsJumpFree(resolvers: seq<Match>)
    ensures JumpFree(LocalDnsRules(resolvers))
  {
    if resolvers != [] {
      LocalDnsJumpFree(resolvers[1..]);
    }
  }

  lemma RuntimeRulesJumpFree(c: Config, servers: seq<nat>, subnets: seq<Cidr>)
    ensures JumpFree(RuntimeRules(c, servers, subnets))
  {
    DnsAllowAllJumpFree(["tun", "wg", "tap"]);
    LocalDnsJumpFree(LOCAL_RESOLVERS);
    DohRulesJumpFree(BlockedResolvers(c));
    LanRulesJumpFree(ServerSubnets(servers), 32);
    LanRulesJumpFree(ValidSubnets(subnets), 32);
  }

  // ---------------------------------------------------------------------
  // Localhost mode: a rule the IPv4 binary refuses
  // ---------------------------------------------------------------------

  predicate OneFamily(rules: seq<Rule>, bits: nat) {
    forall r <- rules :: RightFamily(r, bits)
  }

  lemma {:induction false} LanFamily(subnets: seq<Cidr>, bits: nat)
    ensures OneFamily(LanRules(subnets, bits), bits)
  {
    if subnets != [] {
      LanFamily(subnets[..|subnets| - 1], bits);
    }
  }

  lemma {:induction false} DohFamily(ips: seq<nat>)
    ensures OneFamily(DohRulesFor(ips), 32)
  {
    if ips != [] {
      DohFamily(ips[1..]);
    }
  }

  lemma {:induction false} DnsAllowAllFamily(prefixes: seq<string>)
    ensures OneFamily(DnsAllowAll(prefixes), 32)
  {
    if prefixes != [] {
      DnsAllowAllFamily(prefixes[..|prefixes| - 1]);
    }
  }

  /** The first rule of the wrong family, or the length. */
  function FirstForeign(rules: seq<Rule>, bits: nat): (n: nat)
    ensures n <= |rules|
    ensures forall i :: 0 <= i < n ==> RightFamily(rules[i], bits)
    ensures n < |rules| ==> !RightFamily(rules[n], bits)
  {
    if rules == [] || !RightFamily(rules[0], bits) then 0 else 1 + FirstForeign(rules[1..], bits)
  }

  lemma LocalDnsForeign()
    ensures exists r <- LocalDnsRules(LOCAL_RESOLVERS) :: !RightFamily(r, 32)
  {
    var v6 := LOCAL_RESOLVERS[2];
    var bad := Rule([v6] + ToPort(Udp, 53, 53), Accept);
    assert bad.matches[0] == v6 && v6 in bad.matches && !RightFamily(bad, 32);
    assert LOCAL_RESOLVERS[1..][1..][0] == v6;
    assert bad in LocalDnsRules(LOCAL_RESOLVERS[1..][1..]);
    assert bad in LocalDnsRules(LOCAL_RESOLVERS[1..]);
    assert bad in LocalDnsRules(LOCAL_RESOLVERS);
  }

  lemma DnsFamily(mode: DnsMode)
    requires !mode.LocalhostDns?
    ensures OneFamily(DnsRules(mode), 32)
  {
    DnsAllowAllFamily(["tun", "wg", "tap"]);
  }

  lemma OneFamilyConcat(a: seq<Rule>, b: seq<Rule>, bits: nat)
    requires OneFamily(a, bits) && OneFamily(b, bits)
    ensures OneFamily(a + b, bits)
  {
  }

  /** Exactly in localhost mode the chain holds a rule the IPv4 binary refuses. */
  lemma RuntimeRulesFamily(c: Config, servers: seq<nat>, subnets: seq<Cidr>)
    ensures var rules := RuntimeRules(c, servers, subnets);
            FirstForeign(rules, 32) < |rules| <==> c.dnsMode.LocalhostDns?
  {
    var rules := RuntimeRules(c, servers, subnets);
    if c.dnsMode.LocalhostDns? {
      LocalDnsForeign();
      var r: Rule :| r in LocalDnsRules(LOCAL_RESOLVERS) && !RightFamily(r, 32);
      assert r in DnsRules(c.dnsMode) && r in rules;
    } else {
      DnsFamily(c.dnsMode);
      DohFamily(BlockedResolvers(c));
      LanFamily(ServerSubnets(servers), 32);
      LanFamily(ValidSubnets(subnets), 32);
      var front := [LOOPBACK, CONNTRACK] + DnsRules(c.dnsMode) + [TUN, TAP, WG];
      var doh, lan := DohRulesFor(BlockedResolvers(c)), LanRules(ServerSubnets(servers), 32);
      OneFamilyConcat(front, doh, 32);
      OneFamilyConcat(front + doh, lan, 32);
      OneFamilyConcat(front + doh + lan, LanRules(ValidSubnets(subnets), 32), 32);
    }
  }

  // ---------------------------------------------------------------------
  // IPv6: rules placed directly in OUTPUT
  // ---------------------------------------------------------------------

  function ValidSubnetsV6(subnets: seq<Cidr>): seq<Cidr> {
    if subnets == [] then []
    else ValidSubnetsV6(subnets[..|subnets| - 1]) +
         (if IsValidPrivateCidrV6(subnets[|subnets| - 1]) then [subnets[|subnets| - 1]] else [])
  }

  /** What is placed in front of OUTPUT for IPv6. */
  function Ipv6Rules(mode: Ipv6Mode, subnets: seq<Cidr>): seq<Rule> {
    match mode
    case BlockV6 => [LOOPBACK, DROP_ALL]
    case TunnelV6 => [LOOPBACK, CONNTRACK, TUN] + LanRules(ValidSubnetsV6(subnets), 128) + [DROP_ALL]
    case OffV6 => []
  }

  /** Rule number i goes to position i + 1. */
  function InsertScript(rules: seq<Rule>): (s: seq<Command>)
    ensures |s| == |rules|
  {
    seq(|rules|, i requires 0 <= i < |rules| => InsertRule(OUTPUT, i + 1, rules[i]))
  }

  lemma InsertStep(t: Table, rules: seq<Rule>, k: nat)
    requires OUTPUT in t && JumpFree(rules) && k < |rules|
    ensures Do(t[OUTPUT := rules[..k] + t[OUTPUT]], InsertRule(OUTPUT, k + 1, rules[k])) ==
            t[OUTPUT := rules[..k + 1] + t[OUTPUT]]
  {
    var front := rules[..k] + t[OUTPUT];
    assert rules[k] in rules;
    assert front[..k] + [rules[k]] + front[k..] == rules[..k + 1] + t[OUTPUT];
  }

  /** Inserting at rising positions puts the block in front, in order, at every stage. */
  lemma {:induction false} InsertedInFront(t: Table, rules: seq<Rule>, k: nat)
    requires OUTPUT in t && JumpFree(rules) && k <= |rules|
    ensures After(t, InsertScript(rules)[..k]) == t[OUTPUT := rules[..k] + t[OUTPUT]]
  {
    if k == 0 {
      assert rules[..0] + t[OUTPUT] == t[OUTPUT];
      assert InsertScript(rules)[..0] == [];
    } else {
      var script := InsertScript(rules);
      InsertedInFront(t, rules, k - 1);
      InsertStep(t, rules, k - 1);
      assert script[..k][..k - 1] == script[..k - 1] && script[..k][k - 1] == InsertRule(OUTPUT, k, rules[k - 1]);
    }
  }

  lemma InFront(t: Table, rules: seq<Rule>, p: Packet, d: nat)
    requires OUTPUT in t && !Referenced(t, OUTPUT) && JumpFree(rules)
    ensures var t' := t[OUTPUT := rules + t[OUTPUT]];
            Walk(t', t'[OUTPUT], p, d) ==
            if Walk(t, rules, p, d) == Continue then Walk(t, t[OUTPUT], p, d) else Walk(t, rules, p, d)
  {
    var t' := t[OUTPUT := rules + t[OUTPUT]];
    WalkConcat(t', rules, t[OUTPUT], p, d);
    JumpFreeLocal(t, t', rules, p, d, d);
    assert !Refers(t[OUTPUT], OUTPUT);
    WalkIgnores(t, OUTPUT, rules + t[OUTPUT], t[OUTPUT], p, d);
  }

  /** A block of which only the first `k` rules are in front treats a packet as none of it or as all of it. */
  lemma PartInFront(t: Table, rules: seq<Rule>, k: nat, p: Packet, d: nat)
    requires OUTPUT in t && !Referenced(t, OUTPUT) && JumpFree(rules) && k <= |rules|
    ensures var part, all := t[OUTPUT := rules[..k] + t[OUTPUT]], t[OUTPUT := rules + t[OUTPUT]];
            Walk(part, part[OUTPUT], p, d) in {Walk(t, t[OUTPUT], p, d), Walk(all, all[OUTPUT], p, d)}
  {
    InFront(t, rules[..k], p, d);
    InFront(t, rules, p, d);
    assert rules == rules[..k] + rules[k..];
    WalkConcat(t, rules[..k], rules[k..], p, d);
  }

  /**
   At every stage of the insertion a packet is treated as before or as by the finished
   block. The kernel allows no jump to a built-in chain.
   */
  lemma NoHalfBuiltV6(t: Table, mode: Ipv6Mode, subnets: seq<Cidr>, k: nat, p: Packet, d: nat)
    requires OUTPUT in t && !Referenced(t, OUTPUT) && k <= |Ipv6Rules(mode, subnets)|
    ensures var rules := Ipv6Rules(mode, subnets);
            var stage, done := After(t, InsertScript(rules)[..k]), After(t, InsertScript(rules));
            && OUTPUT in stage && OUTPUT in done
            && Walk(stage, stage[OUTPUT], p, d) in {Walk(t, t[OUTPUT], p, d), Walk(done, done[OUTPUT], p, d)}
  {
    var rules := Ipv6Rules(mode, subnets);
    var n := |rules|;
    Ipv6RulesJumpFree(mode, subnets);
    InsertedInFront(t, rules, k);
    InsertedInFront(t, rules, n);
    assert InsertScript(rules)[..n] == InsertScript(rules) && rules[..n] == rules;
    PartInFront(t, rules, k, p, d);
  }

  predicate Ipv6Allows(mode: Ipv6Mode, subnets: seq<Cidr>, p: Packet) {
    || p.outIface == "lo"
    || (mode.TunnelV6? && (p.established || "tun" <= p.outIface || InSome(ValidSubnetsV6(subnets), p.dst, 128)))
  }

  /** Unless IPv6 handling is off, exactly these IPv6 packets leave, whatever OUTPUT held. */
  lemma Ipv6Verdict(t: Table, mode: Ipv6Mode, subnets: seq<Cidr>, rest: seq<Rule>, p: Packet, d: nat)
    ensures Walk(t, Ipv6Rules(mode, subnets) + rest, p, d) ==
            if mode.OffV6? then Walk(t, rest, p, d)
            else if Ipv6Allows(mode, subnets, p) then Accepted else Dropped
  {
    var rules := Ipv6Rules(mode, subnets);
    WalkConcat(t, rules, rest, p, d);
    WalkOne(t, LOOPBACK, p, d);
    WalkOne(t, DROP_ALL, p, d);
    OneMatch(p, OutIface("lo"));
    match mode
    case OffV6 =>
    case BlockV6 => TwoVerdict(t, LOOPBACK, DROP_ALL, p, d);
    case TunnelV6 =>
      var lan := LanRules(ValidSubnetsV6(subnets), 128);
      assert [LOOPBACK, CONNTRACK, TUN] == [LOOPBACK, CONNTRACK] + [TUN];
      WalkConcat(t, [LOOPBACK, CONNTRACK, TUN] + lan, [DROP_ALL], p, d);
      WalkConcat(t, [LOOPBACK, CONNTRACK, TUN], lan, p, d);
      WalkConcat(t, [LOOPBACK, CONNTRACK], [TUN], p, d);
      HeadVerdict(t, p, d);
      WalkOne(t, TUN, p, d);
      OneMatch(p, OutIfacePrefix("tun"));
      LanVerdict(t, ValidSubnetsV6(subnets), 128, p, d);
  }

  // ---------------------------------------------------------------------
  // Leaving
  // ---------------------------------------------------------------------

  /** The rules the cleanup deletes from the IPv6 OUTPUT chain, in this order. */
  const IPV6_OUTPUT_RULES: seq<Rule> := [DROP_ALL, LOOPBACK, CONNTRACK, TUN, LanRule(LINK_LOCAL_V6, 128)]

  /** OUTPUT after deleting up to `n` copies of each pattern. */
  function Stripped(rules: seq<Rule>, patterns: seq<Rule>, n: nat): seq<Rule>
    decreases |patterns|
  {
    if patterns == [] then rules else Stripped(RemoveUpTo(rules, patterns[0], n), patterns[1..], n)
  }

  /** Every rule but the patterns, in order. */
  function WithoutAll(rules: seq<Rule>, patterns: seq<Rule>): seq<Rule> {
    if rules == [] then []
    else (if rules[0] in patterns then [] else [rules[0]]) + WithoutAll(rules[1..], patterns)
  }

  function CleanedV4(t: Table): Table
    requires OUTPUT in t
  {
    TornDown(t, CHAIN_NAME, CLEANUP_LIMIT)
  }

  function CleanedV6(t: Table): Table
    requires OUTPUT in t
  {
    TornDown(t[OUTPUT := Stripped(t[OUTPUT], IPV6_OUTPUT_RULES, CLEANUP_LIMIT)], CHAIN_NAME, CLEANUP_LIMIT)
  }

  /** The cleanup that precedes every enable and is the whole of a disable. */
  method RobustIptablesCleanup(v4: Netfilter, v6: Netfilter)
    requires v4 != v6 && v6.bits == 128 && OUTPUT in v4.chains && OUTPUT in v6.chains
    modifies v4, v6
    ensures v4.chains == if v4.available then CleanedV4(old(v4.chains)) else old(v4.chains)
    ensures v6.chains == if v6.available then CleanedV6(old(v6.chains)) else old(v6.chains)
  {
    v4.DeleteAll(OUTPUT, JumpTo(CHAIN_NAME), CLEANUP_LIMIT);
    var _ := v4.Execute(FlushChain(CHAIN_NAME));
    var _ := v4.Execute(DeleteChain(CHAIN_NAME));
    TeardownSteps(old(v4.chains), CHAIN_NAME, CLEANUP_LIMIT);
    StripOutput(v6);
    ghost var stripped := v6.chains;
    v6.DeleteAll(OUTPUT, JumpTo(CHAIN_NAME), CLEANUP_LIMIT);
    var _ := v6.Execute(FlushChain(CHAIN_NAME));
    var _ := v6.Execute(DeleteChain(CHAIN_NAME));
    TeardownSteps(stripped, CHAIN_NAME, CLEANUP_LIMIT);
  }

  method StripOutput(v6: Netfilter)
    requires v6.bits == 128 && OUTPUT in v6.chains
    modifies v6
    ensures v6.chains ==
            if v6.available then old(v6.chains)[OUTPUT := Stripped(old(v6.chains)[OUTPUT], IPV6_OUTPUT_RULES, CLEANUP_LIMIT)]
            else old(v6.chains)
  {
    ghost var start, all := v6.chains, IPV6_OUTPUT_RULES;
    for i := 0 to |IPV6_OUTPUT_RULES|
      invariant OUTPUT in v6.chains
      invariant !v6.available ==> v6.chains == start
      invariant v6.available ==>
                  && v6.chains == start[OUTPUT := v6.chains[OUTPUT]]
                  && Stripped(v6.chains[OUTPUT], all[i..], CLEANUP_LIMIT) == Stripped(start[OUTPUT], all, CLEANUP_LIMIT)
    {
      assert all[i..][0] == all[i] && all[i..][1..] == all[i + 1..];
      v6.DeleteAll(OUTPUT, IPV6_OUTPUT_RULES[i], CLEANUP_LIMIT);
    }
  }

  /** The first command, from number `i` on, that fails; the length if none does. */
  function FirstFailure(bits: nat, t: Table, script: seq<Command>, i: nat): (k: nat)
    requires i <= |script|
    ensures i <= k <= |script|
    decreases |script| - i
  {
    if i == |script| || !Parses(script[i], bits) || !Can(After(t, script[..i]), script[i]) then i
    else FirstFailure(bits, t, script, i + 1)
  }

  /** Run the script, stopping at the first failure unless its lines tolerate failure. */
  method RunScript(fw: Netfilter, script: seq<Command>, tolerant: bool) returns (ok: bool)
    requires tolerant ==> forall cmd <- script :: Parses(cmd, fw.bits)
    modifies fw
    ensures !fw.available ==> fw.chains == old(fw.chains) && (ok <==> tolerant || script == [])
    ensures fw.available && tolerant ==> ok && fw.chains == After(old(fw.chains), script)
    ensures fw.available && !tolerant ==>
              var k := FirstFailure(fw.bits, old(fw.chains), script, 0);
              ok == (k == |script|) && fw.chains == After(old(fw.chains), script[..k])
  {
    for i := 0 to |script|
      invariant fw.chains == if fw.available then After(old(fw.chains), script[..i]) else old(fw.chains)
      invariant !tolerant && i > 0 ==> fw.available
      invariant fw.available && !tolerant ==>
                  FirstFailure(fw.bits, old(fw.chains), script, 0) == FirstFailure(fw.bits, old(fw.chains), script, i)
    {
      assert script[..i + 1][..i] == script[..i];
      ok := fw.Execute(script[i]);
      if !ok && !tolerant {
        return false;
      }
    }
    assert script[..|script|] == script;
    return true;
  }

  lemma {:induction false} FailsAt(bits: nat, t: Table, script: seq<Command>, i: nat, k: nat)
    requires i <= k <= |script|
    requires forall j :: i <= j < k ==> Parses(script[j], bits) && Can(After(t, script[..j]), script[j])
    requires k < |script| ==> !Parses(script[k], bits) || !Can(After(t, script[..k]), script[k])
    ensures FirstFailure(bits, t, script, i) == k
    decreases k - i
  {
    if i < k {
      FailsAt(bits, t, script, i + 1, k);
    }
  }

  /** Where the script stops on a table without the chain, and the table it leaves then. */
  function StopsAt(rules: seq<Rule>): nat {
    var n := FirstForeign(rules, 32);
    if n < |rules| then n + 1 else |rules| + 2
  }

  /** The script does all its work, or stops at a rule of the wrong family, or does nothing if the chain exists. */
  lemma ScriptOutcome(t: Table, rules: seq<Rule>)
    requires OUTPUT in t && JumpFree(rules)
    ensures FirstFailure(32, t, EnableScript(rules), 0) == if CHAIN_NAME in t then 0 else StopsAt(rules)
    ensures CHAIN_NAME !in t ==> After(t, EnableScript(rules)[..StopsAt(rules)]) == Stage(t, rules, StopsAt(rules))
  {
    var script := EnableScript(rules);
    if CHAIN_NAME !in t {
      var stop := StopsAt(rules);
      forall k | 0 <= k < stop ensures Parses(script[k], 32) && Can(After(t, script[..k]), script[k]) {
        StageIs(t, rules, k);
      }
      FailsAt(32, t, script, 0, stop);
      StageIs(t, rules, stop);
    }
  }

  /** An unfinished chain on a table without it goes without a trace. */
  lemma UnfinishedGoes(t: Table, body: seq<Rule>)
    requires OUTPUT in t && CHAIN_NAME !in t && Count(t[OUTPUT], JumpTo(CHAIN_NAME)) == 0 && !OtherReference(t, CHAIN_NAME)
    ensures CleanedV4(t[CHAIN_NAME := body]) == t
  {
    var on := t[CHAIN_NAME := body];
    forall k | k in on && k != CHAIN_NAME ensures !RefersOtherwise(k, on[k], CHAIN_NAME) {
      assert !RefersOtherwise(k, t[k], CHAIN_NAME);
    }
    TornDownClean(on, CHAIN_NAME, CLEANUP_LIMIT);
    NoneLeft(t[OUTPUT], JumpTo(CHAIN_NAME));
  }

  /** Once a cleanup removed the chain, or it was never there, nothing refers to it. */
  lemma GoneUnreferenced(t: Table)
    requires OUTPUT in t && Closed(t) && CHAIN_NAME !in CleanedV4(t)
    ensures var clean := CleanedV4(t);
            Count(clean[OUTPUT], JumpTo(CHAIN_NAME)) == 0 && !OtherReference(clean, CHAIN_NAME)
  {
    if CHAIN_NAME !in t {
      AbsentUnreferenced(t, CHAIN_NAME);
    } else {
      SurvivesIff(t, CHAIN_NAME, CLEANUP_LIMIT);
    }
    var clean := CleanedV4(t);
    TornDownClean(t, CHAIN_NAME, CLEANUP_LIMIT);
    RemoveUpToFacts(t[OUTPUT], JumpTo(CHAIN_NAME), CLEANUP_LIMIT);
    forall k | k in clean && k != CHAIN_NAME ensures !RefersOtherwise(k, clean[k], CHAIN_NAME) {
      assert !RefersOtherwise(k, t[k], CHAIN_NAME);
      if k == OUTPUT {
        WithoutKeeps(t[OUTPUT], JumpTo(CHAIN_NAME));
      }
    }
  }

  lemma {:induction false} WithoutKeeps(rules: seq<Rule>, q: Rule)
    ensures forall r <- Without(rules, q) :: r in rules
  {
    if rules != [] {
      WithoutKeeps(rules[1..], q);
    }
  }

  /** The IPv4 part of the script. */
  method BuildV4(v4: Netfilter, c: Config, servers: seq<nat>, subnets: seq<Cidr>) returns (ok: bool)
    requires v4.bits == 32 && OUTPUT in v4.chains
    modifies v4
    ensures ok == (v4.available && CHAIN_NAME !in old(v4.chains) && !c.dnsMode.LocalhostDns?)
    ensures var rules := RuntimeRules(c, servers, subnets);
            v4.chains ==
            if ok then RuntimeEnabled(old(v4.chains), rules)
            else if !v4.available || CHAIN_NAME in old(v4.chains) then old(v4.chains)
            else old(v4.chains)[CHAIN_NAME := rules[..FirstForeign(rules, 32)]]
  {
    var rules := RuntimeRules(c, servers, subnets);
    RuntimeRulesJumpFree(c, servers, subnets);
    RuntimeRulesFamily(c, servers, subnets);
    ScriptOutcome(v4.chains, rules);
    ok := RunScript(v4, EnableScript(rules), false);
  }

  /** The IPv6 part; its lines tolerate failure. */
  method BuildV6(v6: Netfilter, mode: Ipv6Mode, subnets: seq<Cidr>)
    requires v6.bits == 128 && OUTPUT in v6.chains
    modifies v6
    ensures v6.chains ==
            if v6.available then old(v6.chains)[OUTPUT := Ipv6Rules(mode, subnets) + old(v6.chains)[OUTPUT]] else old(v6.chains)
  {
    var rules := Ipv6Rules(mode, subnets);
    Ipv6RulesJumpFree(mode, subnets);
    Ipv6Family(mode, subnets);
    InsertedInFront(v6.chains, rules, |rules|);
    assert rules[..|rules|] == rules && InsertScript(rules)[..|rules|] == InsertScript(rules);
    var _ := RunScript(v6, InsertScript(rules), true);
  }

  /**
   Enable on the iptables backend. It fails exactly when the binary is missing, the chain
   survives the cleanup, or localhost mode is on, and then leaves the cleanup's effect only.
   */
  method EnableIptables(v4: Netfilter, v6: Netfilter, c: Config, servers: seq<nat>, subnets: seq<Cidr>, subnetsV6: seq<Cidr>)
    returns (ok: bool)
    requires v4 != v6 && v4.bits == 32 && v6.bits == 128
    requires OUTPUT in v4.chains && OUTPUT in v6.chains && Closed(v4.chains)
    modifies v4, v6
    ensures ok == (v4.available && CHAIN_NAME !in CleanedV4(old(v4.chains)) && !c.dnsMode.LocalhostDns?)
    ensures var clean := CleanedV4(old(v4.chains));
            v4.chains ==
            if !v4.available then old(v4.chains)
            else if ok then RuntimeEnabled(clean, RuntimeRules(c, servers, subnets))
            else if CHAIN_NAME in clean then CleanedV4(clean)
            else clean
    ensures var clean := CleanedV6(old(v6.chains));
            v6.chains ==
            if !v6.available then old(v6.chains)
            else if ok then clean[OUTPUT := Ipv6Rules(c.ipv6Mode, subnetsV6) + clean[OUTPUT]]
            else CleanedV6(clean)
  {
    RobustIptablesCleanup(v4, v6);
    ghost var clean4 := v4.chains;
    ok := BuildV4(v4, c, servers, subnets);
    if !ok {
      if v4.available && CHAIN_NAME !in clean4 {
        GoneUnreferenced(old(v4.chains));
        UnfinishedGoes(clean4, v4.chains[CHAIN_NAME]);
      }
      RobustIptablesCleanup(v4, v6);
      return;
    }
    BuildV6(v6, c.ipv6Mode, subnetsV6);
  }

  lemma Ipv6Family(mode: Ipv6Mode, subnets: seq<Cidr>)
    ensures OneFamily(Ipv6Rules(mode, subnets), 128)
    ensures forall cmd <- InsertScript(Ipv6Rules(mode, subnets)) :: Parses(cmd, 128)
  {
    LanFamily(ValidSubnetsV6(subnets), 128);
  }

  lemma Ipv6RulesJumpFree(mode: Ipv6Mode, subnets: seq<Cidr>)
    ensures JumpFree(Ipv6Rules(mode, subnets))
  {
    LanRulesJumpFree(ValidSubnetsV6(subnets), 128);
  }

  // ---------------------------------------------------------------------
  // Leave no trace
  // ---------------------------------------------------------------------

  lemma TornDownAbsent(t: Table, c: string, limit: nat)
    requires OUTPUT in t && c !in t && JumpTo(c) !in t[OUTPUT]
    ensures TornDown(t, c, limit) == t
  {
    RemoveFirstFacts(t[OUTPUT], JumpTo(c));
    RemoveUpToFacts(t[OUTPUT], JumpTo(c), limit);
    NoneLeft(t[OUTPUT], JumpTo(c));
  }

  lemma EnabledReferences(t: Table, rules: seq<Rule>)
    requires OUTPUT in t && Closed(t) && CHAIN_NAME !in t
    ensures !OtherReference(RuntimeEnabled(t, rules), CHAIN_NAME)
  {
    var on := RuntimeEnabled(t, rules);
    AbsentUnreferenced(t, CHAIN_NAME);
    forall k | k in on && k != CHAIN_NAME ensures !RefersOtherwise(k, on[k], CHAIN_NAME) {
      assert !RefersOtherwise(k, t[k], CHAIN_NAME);
    }
  }

  lemma JumpInFront(jump: Rule, rest: seq<Rule>)
    requires Count(rest, jump) == 0
    ensures Count([jump] + rest, jump) == 1 && Without([jump] + rest, jump) == rest
  {
    assert ([jump] + rest)[1..] == rest;
    NoneLeft(rest, jump);
  }

  /** On IPv4, enabling and disabling a switch that was not there is a round trip. */
  lemma RoundTripV4(t: Table, rules: seq<Rule>)
    requires OUTPUT in t && Closed(t) && CHAIN_NAME !in t
    ensures CleanedV4(RuntimeEnabled(CleanedV4(t), rules)) == t
  {
    AbsentUnreferenced(t, CHAIN_NAME);
    RemoveFirstFacts(t[OUTPUT], JumpTo(CHAIN_NAME));
    TornDownAbsent(t, CHAIN_NAME, CLEANUP_LIMIT);
    JumpInFront(JumpTo(CHAIN_NAME), t[OUTPUT]);
    EnabledReferences(t, rules);
    TornDownClean(RuntimeEnabled(t, rules), CHAIN_NAME, CLEANUP_LIMIT);
  }

  lemma {:induction false} CountConcat(a: seq<Rule>, b: seq<Rule>, r: Rule)
    ensures Count(a + b, r) == Count(a, r) + Count(b, r)
  {
    if a == [] {
      assert a + b == b;
    } else {
      assert (a + b)[1..] == a[1..] + b;
      CountConcat(a[1..], b, r);
    }
  }

  lemma {:induction false} WithoutAllConcat(a: seq<Rule>, b: seq<Rule>, patterns: seq<Rule>)
    ensures WithoutAll(a + b, patterns) == WithoutAll(a, patterns) + WithoutAll(b, patterns)
  {
    if a == [] {
      assert a + b == b;
    } else {
      assert (a + b)[1..] == a[1..] + b;
      WithoutAllConcat(a[1..], b, patterns);
    }
  }

  lemma {:induction false} WithoutAllMember(rules: seq<Rule>, patterns: seq<Rule>, r: Rule)
    ensures r in WithoutAll(rules, patterns) <==> r in rules && r !in patterns
  {
    if rules != [] {
      WithoutAllMember(rules[1..], patterns, r);
    }
  }

  lemma {:induction false} WithoutAllSame(rules: seq<Rule>, patterns: seq<Rule>)
    ensures |WithoutAll(rules, patterns)| <= |rules|
    ensures WithoutAll(rules, patterns) == rules <==> forall r <- rules :: r !in patterns
  {
    if rules != [] {
      WithoutAllSame(rules[1..], patterns);
      assert rules == [rules[0]] + rules[1..];
      if rules[0] !in patterns {
        assert WithoutAll(rules, patterns)[1..] == WithoutAll(rules[1..], patterns);
      }
    }
  }

  lemma {:induction false} CountWithout(rules: seq<Rule>, q: Rule, r: Rule)
    ensures Count(Without(rules, q), r) <= Count(rules, r)
  {
    if rules != [] {
      CountWithout(rules[1..], q, r);
      if rules[0] != q {
        assert Without(rules, q)[1..] == Without(rules[1..], q);
      } else {
        assert Without(rules, q) == Without(rules[1..], q);
      }
    }
  }

  lemma {:induction false} WithoutThenAll(rules: seq<Rule>, patterns: seq<Rule>)
    requires patterns != []
    ensures WithoutAll(Without(rules, patterns[0]), patterns[1..]) == WithoutAll(rules, patterns)
  {
    if rules != [] {
      WithoutThenAll(rules[1..], patterns);
      assert patterns == [patterns[0]] + patterns[1..];
      if rules[0] != patterns[0] {
        assert Without(rules, patterns[0])[1..] == Without(rules[1..], patterns[0]);
      } else {
        assert Without(rules, patterns[0]) == Without(rules[1..], patterns[0]);
      }
    }
  }

  /** Detected subnets whose rule is not on the cleanup's list. */
  function OrphanSubnets(subnets: seq<Cidr>): seq<Cidr> {
    if subnets == [] then []
    else OrphanSubnets(subnets[..|subnets| - 1]) +
         (if subnets[|subnets| - 1] != LINK_LOCAL_V6 then [subnets[|subnets| - 1]] else [])
  }

  function Orphans(mode: Ipv6Mode, subnets: seq<Cidr>): seq<Rule> {
    if mode.TunnelV6? then LanRules(OrphanSubnets(ValidSubnetsV6(subnets)), 128) else []
  }

  lemma {:induction false} LanOrphans(subnets: seq<Cidr>)
    ensures WithoutAll(LanRules(subnets, 128), IPV6_OUTPUT_RULES) == LanRules(OrphanSubnets(subnets), 128)
  {
    if subnets != [] {
      var init, last := subnets[..|subnets| - 1], subnets[|subnets| - 1];
      LanOrphans(init);
      WithoutAllConcat(LanRules(init, 128), [LanRule(last, 128)], IPV6_OUTPUT_RULES);
      WithoutAllSame([LanRule(last, 128)], IPV6_OUTPUT_RULES);
      assert [LanRule(last, 128)][1..] == [];
      assert LanRule(last, 128) in IPV6_OUTPUT_RULES <==> last == LINK_LOCAL_V6;
      var o := OrphanSubnets(init);
      if last != LINK_LOCAL_V6 {
        assert (o + [last])[..|o|] == o;
      } else {
        assert OrphanSubnets(subnets) == o;
        assert WithoutAll([LanRule(last, 128)], IPV6_OUTPUT_RULES) == [];
      }
    }
  }

  lemma Ipv6Orphans(mode: Ipv6Mode, subnets: seq<Cidr>)
    ensures WithoutAll(Ipv6Rules(mode, subnets), IPV6_OUTPUT_RULES) == Orphans(mode, subnets)
  {
    var pats := IPV6_OUTPUT_RULES;
    assert DROP_ALL in pats && LOOPBACK in pats && CONNTRACK in pats && TUN in pats;
    forall rules: seq<Rule> | forall r <- rules :: r in pats ensures WithoutAll(rules, pats) == [] {
      AllStripped(rules, pats);
    }
    if mode.TunnelV6? {
      var lan := LanRules(ValidSubnetsV6(subnets), 128);
      WithoutAllConcat([LOOPBACK, CONNTRACK, TUN] + lan, [DROP_ALL], pats);
      WithoutAllConcat([LOOPBACK, CONNTRACK, TUN], lan, pats);
      LanOrphans(ValidSubnetsV6(subnets));
    }
  }

  lemma {:induction false} AllStripped(rules: seq<Rule>, patterns: seq<Rule>)
    requires forall r <- rules :: r in patterns
    ensures WithoutAll(rules, patterns) == []
  {
    if rules != [] {
      AllStripped(rules[1..], patterns);
    }
  }

  predicate Distinct(subnets: seq<Cidr>) {
    forall i, j :: 0 <= i < j < |subnets| ==> subnets[i] != subnets[j]
  }

  lemma {:induction false} ValidSubnetsV6Distinct(subnets: seq<Cidr>)
    requires Distinct(subnets)
    ensures Distinct(ValidSubnetsV6(subnets))
    ensures forall c <- ValidSubnetsV6(subnets) :: c in subnets
  {
    if subnets != [] {
      var init, last := subnets[..|subnets| - 1], subnets[|subnets| - 1];
      ValidSubnetsV6Distinct(init);
      forall c | c in ValidSubnetsV6(init) ensures c != last && c in subnets {
        var i :| 0 <= i < |init| && init[i] == c;
        assert subnets[i] == c;
      }
      var v := ValidSubnetsV6(init);
      assert forall i :: 0 <= i < |v| ==> v[i] in v;
    }
  }

  lemma {:induction false} LanRuleCount(subnets: seq<Cidr>, r: Rule)
    requires Distinct(subnets)
    ensures Count(LanRules(subnets, 128), r) <= 1
    ensures Count(LanRules(subnets, 128), r) == 1 ==> exists c <- subnets :: r == LanRule(c, 128)
  {
    if subnets != [] {
      var init, last := subnets[..|subnets| - 1], subnets[|subnets| - 1];
      LanRuleCount(init, r);
      CountConcat(LanRules(init, 128), [LanRule(last, 128)], r);
      assert [LanRule(last, 128)][1..] == [];
      assert last in subnets;
    }
  }

  /** The block that enabling puts in front holds few copies of any rule. */
  lemma BlockCount(mode: Ipv6Mode, subnets: seq<Cidr>, r: Rule)
    requires Distinct(subnets)
    ensures Count(Ipv6Rules(mode, subnets), r) <= 5
  {
    ValidSubnetsV6Distinct(subnets);
    var lan := LanRules(ValidSubnetsV6(subnets), 128);
    LanRuleCount(ValidSubnetsV6(subnets), r);
    CountConcat([LOOPBACK, CONNTRACK, TUN] + lan, [DROP_ALL], r);
    CountConcat([LOOPBACK, CONNTRACK, TUN], lan, r);
    CountAtMost([LOOPBACK, CONNTRACK, TUN], r);
    CountAtMost([DROP_ALL], r);
    CountAtMost([LOOPBACK, DROP_ALL], r);
  }

  lemma {:induction false} CountAtMost(rules: seq<Rule>, r: Rule)
    ensures Count(rules, r) <= |rules|
  {
    if rules != [] {
      CountAtMost(rules[1..], r);
    }
  }

  /** Enabling and then disabling, on the IPv6 table. */
  function OnAndOffV6(t: Table, mode: Ipv6Mode, subnets: seq<Cidr>): Table
    requires OUTPUT in t
  {
    var clean := CleanedV6(t);
    CleanedV6(clean[OUTPUT := Ipv6Rules(mode, subnets) + clean[OUTPUT]])
  }

  // Stripping, with any number of copies

  lemma {:induction false} RemoveFirstKeeps(rules: seq<Rule>, r: Rule, patterns: seq<Rule>)
    requires r in patterns
    ensures WithoutAll(RemoveFirst(rules, r), patterns) == WithoutAll(rules, patterns)
  {
    if rules != [] && rules[0] != r {
      RemoveFirstKeeps(rules[1..], r, patterns);
      var rest := RemoveFirst(rules[1..], r);
      assert ([rules[0]] + rest)[1..] == rest;
    }
  }

  lemma {:induction false} RemoveUpToKeeps(rules: seq<Rule>, r: Rule, n: nat, patterns: seq<Rule>)
    requires r in patterns
    ensures WithoutAll(RemoveUpTo(rules, r, n), patterns) == WithoutAll(rules, patterns)
  {
    if n > 0 {
      RemoveUpToKeeps(rules, r, n - 1, patterns);
      RemoveFirstKeeps(RemoveUpTo(rules, r, n - 1), r, patterns);
    }
  }

  /** Stripping keeps every other rule, in order. */
  lemma {:induction false} StrippedKeeps(rules: seq<Rule>, some: seq<Rule>, n: nat, patterns: seq<Rule>)
    requires forall q <- some :: q in patterns
    ensures WithoutAll(Stripped(rules, some, n), patterns) == WithoutAll(rules, patterns)
    decreases |some|
  {
    if some != [] {
      RemoveUpToKeeps(rules, some[0], n, patterns);
      StrippedKeeps(RemoveUpTo(rules, some[0], n), some[1..], n, patterns);
    }
  }

  predicate DistinctRules(rules: seq<Rule>) {
    forall i, j :: 0 <= i < j < |rules| ==> rules[i] != rules[j]
  }

  lemma {:induction false} StrippedOther(rules: seq<Rule>, patterns: seq<Rule>, n: nat, q: Rule)
    requires q !in patterns
    ensures Count(Stripped(rules, patterns, n), q) == Count(rules, q)
    decreases |patterns|
  {
    if patterns != [] {
      CountAfterOther(rules, patterns[0], q, n);
      StrippedOther(RemoveUpTo(rules, patterns[0], n), patterns[1..], n, q);
    }
  }

  /** Of every pattern exactly the copies beyond the limit are left. */
  lemma {:induction false} StrippedCount(rules: seq<Rule>, patterns: seq<Rule>, n: nat, q: Rule)
    requires DistinctRules(patterns) && q in patterns
    ensures Count(Stripped(rules, patterns, n), q) == if Count(rules, q) <= n then 0 else Count(rules, q) - n
    decreases |patterns|
  {
    var once, rest := RemoveUpTo(rules, patterns[0], n), patterns[1..];
    if q == patterns[0] {
      RemoveUpToFacts(rules, q, n);
      assert forall i :: 0 <= i < |rest| ==> rest[i] == patterns[i + 1];
      StrippedOther(once, rest, n, q);
    } else {
      CountAfterOther(rules, patterns[0], q, n);
      StrippedCount(once, rest, n, q);
    }
  }

  lemma PatternsDistinct()
    ensures DistinctRules(IPV6_OUTPUT_RULES)
  {
    var p := IPV6_OUTPUT_RULES;
    assert |p[0].matches| == 0 && p[1].matches[0].OutIface? && p[2].matches[0].ConntrackEstablished?;
    assert p[3].matches[0].OutIfacePrefix? && p[4].matches[0].Dst?;
  }

  /** The cleanup on a table without the chain only strips OUTPUT. */
  lemma CleanedV6Absent(t: Table)
    requires OUTPUT in t && CHAIN_NAME !in t && JumpTo(CHAIN_NAME) !in t[OUTPUT]
    ensures CleanedV6(t) == t[OUTPUT := Stripped(t[OUTPUT], IPV6_OUTPUT_RULES, CLEANUP_LIMIT)]
    ensures JumpTo(CHAIN_NAME) !in Stripped(t[OUTPUT], IPV6_OUTPUT_RULES, CLEANUP_LIMIT)
  {
    var jump, left := JumpTo(CHAIN_NAME), Stripped(t[OUTPUT], IPV6_OUTPUT_RULES, CLEANUP_LIMIT);
    StrippedOther(t[OUTPUT], IPV6_OUTPUT_RULES, CLEANUP_LIMIT, jump);
    RemoveFirstFacts(t[OUTPUT], jump);
    RemoveFirstFacts(left, jump);
    TornDownAbsent(t[OUTPUT := left], CHAIN_NAME, CLEANUP_LIMIT);
  }

  /** OUTPUT after enabling and disabling: stripped, with the block in front, and stripped again. */
  function OnAndOffOutput(o: seq<Rule>, mode: Ipv6Mode, subnets: seq<Cidr>): seq<Rule> {
    var first := Stripped(o, IPV6_OUTPUT_RULES, CLEANUP_LIMIT);
    Stripped(Ipv6Rules(mode, subnets) + first, IPV6_OUTPUT_RULES, CLEANUP_LIMIT)
  }

  lemma NoJumpOn(o: seq<Rule>, mode: Ipv6Mode, subnets: seq<Cidr>)
    requires JumpTo(CHAIN_NAME) !in o
    ensures JumpTo(CHAIN_NAME) !in Ipv6Rules(mode, subnets) + o
  {
    Ipv6RulesJumpFree(mode, subnets);
  }

  lemma CleanedTwice(t: Table, o: seq<Rule>, mode: Ipv6Mode, subnets: seq<Cidr>)
    requires OUTPUT in t && CHAIN_NAME !in t && JumpTo(CHAIN_NAME) !in o
    ensures var block := Ipv6Rules(mode, subnets);
            CleanedV6(t[OUTPUT := block + o]) == t[OUTPUT := Stripped(block + o, IPV6_OUTPUT_RULES, CLEANUP_LIMIT)]
  {
    var on := t[OUTPUT := Ipv6Rules(mode, subnets) + o];
    NoJumpOn(o, mode, subnets);
    CleanedV6Absent(on);
  }

  lemma OnAndOffIs(t: Table, mode: Ipv6Mode, subnets: seq<Cidr>)
    requires OUTPUT in t && Closed(t) && CHAIN_NAME !in t
    ensures OnAndOffV6(t, mode, subnets) == t[OUTPUT := OnAndOffOutput(t[OUTPUT], mode, subnets)]
  {
    var block, first := Ipv6Rules(mode, subnets), Stripped(t[OUTPUT], IPV6_OUTPUT_RULES, CLEANUP_LIMIT);
    AbsentUnreferenced(t, CHAIN_NAME);
    RemoveFirstFacts(t[OUTPUT], JumpTo(CHAIN_NAME));
    CleanedV6Absent(t);
    assert t[OUTPUT := first][OUTPUT := block + first] == t[OUTPUT := block + first];
    CleanedTwice(t, first, mode, subnets);
  }

  /** Copies of a pattern that enabling and disabling leaves. */
  lemma OnAndOffCount(o: seq<Rule>, mode: Ipv6Mode, subnets: seq<Cidr>, q: Rule)
    requires q in IPV6_OUTPUT_RULES && Distinct(subnets)
    ensures var n := Count(o, q) + Count(Ipv6Rules(mode, subnets), q);
            Count(OnAndOffOutput(o, mode, subnets), q) == if n <= 2 * CLEANUP_LIMIT then 0 else n - 2 * CLEANUP_LIMIT
  {
    var block, first := Ipv6Rules(mode, subnets), Stripped(o, IPV6_OUTPUT_RULES, CLEANUP_LIMIT);
    PatternsDistinct();
    StrippedCount(o, IPV6_OUTPUT_RULES, CLEANUP_LIMIT, q);
    CountConcat(block, first, q);
    BlockCount(mode, subnets, q);
    StrippedCount(block + first, IPV6_OUTPUT_RULES, CLEANUP_LIMIT, q);
  }

  lemma AllStrippedWhen(o: seq<Rule>, mode: Ipv6Mode, subnets: seq<Cidr>)
    requires forall q <- IPV6_OUTPUT_RULES :: Count(OnAndOffOutput(o, mode, subnets), q) == 0
    ensures OnAndOffOutput(o, mode, subnets) == Orphans(mode, subnets) + WithoutAll(o, IPV6_OUTPUT_RULES)
  {
    var pats, block := IPV6_OUTPUT_RULES, Ipv6Rules(mode, subnets);
    var first, second := Stripped(o, pats, CLEANUP_LIMIT), OnAndOffOutput(o, mode, subnets);
    forall r | r in second ensures r !in pats {
      RemoveFirstFacts(second, r);
    }
    WithoutAllSame(second, pats);
    StrippedKeeps(block + first, pats, CLEANUP_LIMIT, pats);
    WithoutAllConcat(block, first, pats);
    StrippedKeeps(o, pats, CLEANUP_LIMIT, pats);
    Ipv6Orphans(mode, subnets);
  }

  lemma NoPatternIn(mode: Ipv6Mode, subnets: seq<Cidr>, o: seq<Rule>, q: Rule)
    requires q in IPV6_OUTPUT_RULES
    ensures Count(Orphans(mode, subnets) + WithoutAll(o, IPV6_OUTPUT_RULES), q) == 0
  {
    var all := Orphans(mode, subnets) + WithoutAll(o, IPV6_OUTPUT_RULES);
    Ipv6Orphans(mode, subnets);
    WithoutAllMember(Ipv6Rules(mode, subnets), IPV6_OUTPUT_RULES, q);
    WithoutAllMember(o, IPV6_OUTPUT_RULES, q);
    RemoveFirstFacts(all, q);
  }

  /**
   Enabling and disabling leaves of the IPv6 OUTPUT chain every rule but the five patterns,
   with the orphans in front, exactly when no pattern has more copies than two cleanups
   delete.
   */
  lemma OnAndOffV6Leaves(t: Table, mode: Ipv6Mode, subnets: seq<Cidr>)
    requires OUTPUT in t && Closed(t) && CHAIN_NAME !in t && Distinct(subnets)
    ensures OnAndOffV6(t, mode, subnets) == t[OUTPUT := Orphans(mode, subnets) + WithoutAll(t[OUTPUT], IPV6_OUTPUT_RULES)]
            <==> forall q <- IPV6_OUTPUT_RULES :: Count(t[OUTPUT], q) + Count(Ipv6Rules(mode, subnets), q) <= 200
  {
    var pats, o := IPV6_OUTPUT_RULES, t[OUTPUT];
    var left, wanted := OnAndOffOutput(o, mode, subnets), Orphans(mode, subnets) + WithoutAll(o, pats);
    OnAndOffIs(t, mode, subnets);
    forall q | q in pats
      ensures Count(left, q) == 0 <==> Count(o, q) + Count(Ipv6Rules(mode, subnets), q) <= 2 * CLEANUP_LIMIT
      ensures Count(wanted, q) == 0
    {
      OnAndOffCount(o, mode, subnets, q);
      NoPatternIn(mode, subnets, o, q);
    }
    if forall q <- pats :: Count(left, q) == 0 {
      AllStrippedWhen(o, mode, subnets);
    }
    assert t[OUTPUT := left] == t[OUTPUT := wanted] <==> left == wanted by {
      assert t[OUTPUT := left][OUTPUT] == left && t[OUTPUT := wanted][OUTPUT] == wanted;
    }
  }

  lemma KeptStays(rules: seq<Rule>, patterns: seq<Rule>)
    ensures WithoutAll(WithoutAll(rules, patterns), patterns) == WithoutAll(rules, patterns)
  {
    var kept := WithoutAll(rules, patterns);
    forall r | r in kept ensures r !in patterns {
      WithoutAllMember(rules, patterns, r);
    }
    WithoutAllSame(kept, patterns);
  }

  /** Any copy of a pattern in OUTPUT is one too many to be restored. */
  lemma NotRestored(o: seq<Rule>, mode: Ipv6Mode, subnets: seq<Cidr>, q: Rule)
    requires q in IPV6_OUTPUT_RULES && q in o && Distinct(subnets)
    ensures OnAndOffOutput(o, mode, subnets) != o
  {
    RemoveFirstFacts(o, q);
    OnAndOffCount(o, mode, subnets, q);
    BlockCount(mode, subnets, q);
  }

  /**
   "No orphaned firewall rules", on IPv6: enabling and disabling restores the table
   exactly when OUTPUT held none of the five rules the cleanup deletes by pattern, and
   no accepted subnet other than fe80::/10 was detected in tunnel mode.
   */
  lemma LeaveNoTraceIff(t: Table, mode: Ipv6Mode, subnets: seq<Cidr>)
    requires OUTPUT in t && Closed(t) && CHAIN_NAME !in t && Distinct(subnets)
    ensures OnAndOffV6(t, mode, subnets) == t <==>
            && (forall r <- t[OUTPUT] :: r !in IPV6_OUTPUT_RULES)
            && (mode.TunnelV6? ==> forall c <- subnets :: IsValidPrivateCidrV6(c) ==> c == LINK_LOCAL_V6)
  {
    var pats, o := IPV6_OUTPUT_RULES, t[OUTPUT];
    var left := OnAndOffOutput(o, mode, subnets);
    OnAndOffIs(t, mode, subnets);
    assert t[OUTPUT := left] == t <==> left == o;
    OrphansEmptyIff(subnets);
    if q :| q in pats && q in o {
      NotRestored(o, mode, subnets, q);
    } else {
      forall q | q in pats ensures Count(left, q) == 0 {
        OnAndOffCount(o, mode, subnets, q);
        BlockCount(mode, subnets, q);
        RemoveFirstFacts(o, q);
      }
      AllStrippedWhen(o, mode, subnets);
      WithoutAllSame(o, pats);
    }
  }

  /** fd00::/8, a typical unique-local prefix. */
  const ULA := Cidr(Shl(0xfd, 120), 8)

  lemma UlaIsAccepted()
    ensures IsValidPrivateCidrV6(ULA)
  {
    Pow2Constants();
    ShlFits(0xfd, 120, 8);
    ShrShl(0xfd, 120, 121);
    ShrConstant(0xfd);
    RangesByPrefixV6(ULA.addr);
  }

  /** For instance, one detected fd00::/8 interface, besides fe80::/10, leaves its accept rule behind. */
  lemma UlaRuleOrphaned()
    ensures OnAndOffV6(map[OUTPUT := []], TunnelV6, [ULA, LINK_LOCAL_V6]) != map[OUTPUT := []]
  {
    UlaIsAccepted();
    assert ULA in [ULA, LINK_LOCAL_V6] && ULA.prefix != LINK_LOCAL_V6.prefix;
    LeaveNoTraceIff(map[OUTPUT := []], TunnelV6, [ULA, LINK_LOCAL_V6]);
  }

  lemma OrphansEmptyIff(subnets: seq<Cidr>)
    ensures LanRules(OrphanSubnets(ValidSubnetsV6(subnets)), 128) == [] <==>
            forall c <- subnets :: IsValidPrivateCidrV6(c) ==> c == LINK_LOCAL_V6
  {
    forall c: Cidr
      ensures c in OrphanSubnets(ValidSubnetsV6(subnets)) <==> c in subnets && IsValidPrivateCidrV6(c) && c != LINK_LOCAL_V6
    {
      ValidSubnetsV6Member(subnets, c);
      OrphanMember(ValidSubnetsV6(subnets), c);
    }
    var o := OrphanSubnets(ValidSubnetsV6(subnets));
    if o != [] {
      assert o[0] in o;
    }
  }

  lemma {:induction false} ValidSubnetsV6Member(subnets: seq<Cidr>, c: Cidr)
    ensures c in ValidSubnetsV6(subnets) <==> c in subnets && IsValidPrivateCidrV6(c)
  {
    if subnets != [] {
      ValidSubnetsV6Member(subnets[..|subnets| - 1], c);
      assert subnets == subnets[..|subnets| - 1] + [subnets[|subnets| - 1]];
    }
  }

  lemma {:induction false} OrphanMember(subnets: seq<Cidr>, c: Cidr)
    ensures c in OrphanSubnets(subnets) <==> c in subnets && c != LINK_LOCAL_V6
  {
    if subnets != [] {
      OrphanMember(subnets[..|subnets| - 1], c);
      assert subnets == subnets[..|subnets| - 1] + [subnets[|subnets| - 1]];
    }
  }
}
