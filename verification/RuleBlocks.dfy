/**
 The rule builders of the kill switch and the verdict of each block of rules, in any
 chain it is placed in.
 */
module RuleBlocks {
  import opened Cidr
  import opened PacketFilter

  const TUNNEL_PREFIXES: seq<string> := ["tun", "tap", "wg"]

  const LOOPBACK := Rule([OutIface("lo")], Accept)
  const DROP_ALL := Rule([], Drop)
  /** fe80::/10 */

  predicate OnTunnel(p: Packet) {
    "tun" <= p.outIface || "tap" <= p.outIface || "wg" <= p.outIface
  }

  predicate IsDns(p: Packet) {
    (p.protocol.Udp? || p.protocol.Tcp?) && p.dport == 53
  }

  predicate IsDnsOverTls(p: Packet) {
    p.protocol.Tcp? && p.dport == 853
  }

  function ToPort(protocol: Protocol, low: nat, high: nat): seq<Match> {
    [IsProtocol(protocol), DPort(low, high)]
  }

  lemma PortMatch(p: Packet, protocol: Protocol, low: nat, high: nat)
    ensures AllHold(p, ToPort(protocol, low, high)) <==> p.protocol == protocol && low <= p.dport <= high
  {
    assert ToPort(protocol, low, high) == [IsProtocol(protocol)] + [DPort(low, high)];
    PrefixedMatch(p, IsProtocol(protocol), [DPort(low, high)]);
    OneMatch(p, DPort(low, high));
  }

  lemma PrefixedMatch(p: Packet, m: Match, ms: seq<Match>)
    ensures AllHold(p, [m] + ms) <==> Holds(p, m) && AllHold(p, ms)
  {
    assert ([m] + ms)[1..] == ms;
  }

  lemma OneMatch(p: Packet, m: Match)
    ensures AllHold(p, [m]) <==> Holds(p, m)
  {
    assert [m][1..] == [];
  }

  // ---------------------------------------------------------------------
  // DNS through the tunnel only
  // ---------------------------------------------------------------------

  function DnsAllow(prefix: string): seq<Rule> {
    [Rule([OutIfacePrefix(prefix)] + ToPort(Udp, 53, 53), Accept),
     Rule([OutIfacePrefix(prefix)] + ToPort(Tcp, 53, 53), Accept)]
  }

  function DnsAllowAll(prefixes: seq<string>): seq<Rule> {
    if prefixes == [] then [] else DnsAllowAll(prefixes[..|prefixes| - 1]) + DnsAllow(prefixes[|prefixes| - 1])
  }

  const DNS_BLOCK: seq<Rule> :=
    [Rule(ToPort(Udp, 53, 53), Drop), Rule(ToPort(Tcp, 53, 53), Drop), Rule(ToPort(Tcp, 853, 853), Drop)]

  /** The rules of `build_dns_tunnel_rules`. */
  function DnsTunnelRules(): seq<Rule> {
    DnsAllowAll(TUNNEL_PREFIXES) + DNS_BLOCK
  }

  method BuildDnsTunnelRules() returns (rules: seq<Rule>)
    ensures rules == DnsTunnelRules()
  {
    rules := [];
    for i := 0 to |TUNNEL_PREFIXES|
      invariant rules == DnsAllowAll(TUNNEL_PREFIXES[..i])
    {
      var prefix := TUNNEL_PREFIXES[i];
      ghost var soFar := TUNNEL_PREFIXES[..i + 1];
      assert soFar[..i] == TUNNEL_PREFIXES[..i] && soFar[i] == prefix;
      rules := rules + [Rule([OutIfacePrefix(prefix)] + ToPort(Udp, 53, 53), Accept)];
      rules := rules + [Rule([OutIfacePrefix(prefix)] + ToPort(Tcp, 53, 53), Accept)];
    }
    assert TUNNEL_PREFIXES[..|TUNNEL_PREFIXES|] == TUNNEL_PREFIXES;
    rules := rules + [Rule(ToPort(Udp, 53, 53), Drop)];
    rules := rules + [Rule(ToPort(Tcp, 53, 53), Drop)];
    rules := rules + [Rule(ToPort(Tcp, 853, 853), Drop)];
  }

  lemma DnsAllowVerdict(t: Table, prefix: string, p: Packet, d: nat)
    ensures Walk(t, DnsAllow(prefix), p, d) == if IsDns(p) && prefix <= p.outIface then Accepted else Continue
  {
    var a, b := DnsAllow(prefix)[0], DnsAllow(prefix)[1];
    assert DnsAllow(prefix) == [a] + [b];
    WalkConcat(t, [a], [b], p, d);
    WalkOne(t, a, p, d);
    WalkOne(t, b, p, d);
    PrefixedMatch(p, OutIfacePrefix(prefix), ToPort(Udp, 53, 53));
    PrefixedMatch(p, OutIfacePrefix(prefix), ToPort(Tcp, 53, 53));
    PortMatch(p, Udp, 53, 53);
    PortMatch(p, Tcp, 53, 53);
  }

  predicate OnAny(prefixes: seq<string>, p: Packet) {
    exists i :: 0 <= i < |prefixes| && prefixes[i] <= p.outIface
  }

  lemma {:induction false} DnsAllowAllVerdict(t: Table, prefixes: seq<string>, p: Packet, d: nat)
    ensures Walk(t, DnsAllowAll(prefixes), p, d) ==
            if IsDns(p) && OnAny(prefixes, p) then Accepted else Continue
  {
    if prefixes != [] {
      var init, last := prefixes[..|prefixes| - 1], prefixes[|prefixes| - 1];
      DnsAllowAllVerdict(t, init, p, d);
      DnsAllowVerdict(t, last, p, d);
      WalkConcat(t, DnsAllowAll(init), DnsAllow(last), p, d);
      assert forall i :: 0 <= i < |init| ==> init[i] == prefixes[i];
      assert OnAny(prefixes, p) <==> OnAny(init, p) || last <= p.outIface;
    }
  }

  lemma DnsBlockVerdict(t: Table, p: Packet, d: nat)
    ensures Walk(t, DNS_BLOCK, p, d) == if IsDns(p) || IsDnsOverTls(p) then Dropped else Continue
  {
    var a, b, c := DNS_BLOCK[0], DNS_BLOCK[1], DNS_BLOCK[2];
    assert DNS_BLOCK == [a] + ([b] + [c]);
    WalkConcat(t, [a], [b] + [c], p, d);
    WalkConcat(t, [b], [c], p, d);
    WalkOne(t, a, p, d);
    WalkOne(t, b, p, d);
    WalkOne(t, c, p, d);
    PortMatch(p, Udp, 53, 53);
    PortMatch(p, Tcp, 53, 53);
    PortMatch(p, Tcp, 853, 853);
  }

  /** The block by itself: plain DNS only through a tunnel, DNS over TLS nowhere. */
  lemma DnsTunnelVerdict(t: Table, p: Packet, d: nat)
    ensures Walk(t, DnsTunnelRules(), p, d) ==
            if IsDns(p) then (if OnTunnel(p) then Accepted else Dropped)
            else if IsDnsOverTls(p) then Dropped
            else Continue
  {
    DnsAllowAllVerdict(t, TUNNEL_PREFIXES, p, d);
    DnsBlockVerdict(t, p, d);
    WalkConcat(t, DnsAllowAll(TUNNEL_PREFIXES), DNS_BLOCK, p, d);
    assert TUNNEL_PREFIXES[0] == "tun" && TUNNEL_PREFIXES[1] == "tap" && TUNNEL_PREFIXES[2] == "wg";
  }

  /** The block in any chain: it decides DNS packets that reach it and is invisible to all others. */
  lemma DnsTunnelInContext(t: Table, before: seq<Rule>, after: seq<Rule>, p: Packet, d: nat)
    ensures Walk(t, before + DnsTunnelRules() + after, p, d) ==
            if Walk(t, before, p, d) != Continue then Walk(t, before, p, d)
            else if IsDns(p) then (if OnTunnel(p) then Accepted else Dropped)
            else if IsDnsOverTls(p) then Dropped
            else Walk(t, before + after, p, d)
  {
    WalkConcat(t, before + DnsTunnelRules(), after, p, d);
    WalkConcat(t, before, DnsTunnelRules(), p, d);
    WalkConcat(t, before, after, p, d);
    DnsTunnelVerdict(t, p, d);
  }

  // ---------------------------------------------------------------------
  // LAN access, open and restricted
  // ---------------------------------------------------------------------

  function LanRule(c: Cidr, bits: nat): Rule {
    Rule([Dst(c, bits)], Accept)
  }

  /** One accept rule per subnet. */
  function LanRules(subnets: seq<Cidr>, bits: nat): seq<Rule> {
    if subnets == [] then [] else LanRules(subnets[..|subnets| - 1], bits) + [LanRule(subnets[|subnets| - 1], bits)]
  }

  predicate InSome(subnets: seq<Cidr>, x: nat, bits: nat) {
    exists c <- subnets :: InSubnet(c, x, bits)
  }

  lemma {:induction false} LanVerdict(t: Table, subnets: seq<Cidr>, bits: nat, p: Packet, d: nat)
    ensures Walk(t, LanRules(subnets, bits), p, d) == if InSome(subnets, p.dst, bits) then Accepted else Continue
  {
    if subnets != [] {
      var init, last := subnets[..|subnets| - 1], subnets[|subnets| - 1];
      LanVerdict(t, init, bits, p, d);
      WalkConcat(t, LanRules(init, bits), [LanRule(last, bits)], p, d);
      WalkOne(t, LanRule(last, bits), p, d);
      OneMatch(p, Dst(last, bits));
      assert subnets == init + [last];
    }
  }

  /** The subnets that pass the validator, in order. */
  function ValidSubnets(subnets: seq<Cidr>): seq<Cidr> {
    if subnets == [] then []
    else ValidSubnets(subnets[..|subnets| - 1]) +
         (if IsValidPrivateCidr(subnets[|subnets| - 1]) then [subnets[|subnets| - 1]] else [])
  }

  lemma {:induction false} ValidSubnetsMember(subnets: seq<Cidr>, c: Cidr)
    ensures c in ValidSubnets(subnets) <==> c in subnets && IsValidPrivateCidr(c)
  {
    if subnets != [] {
      ValidSubnetsMember(subnets[..|subnets| - 1], c);
      assert subnets == subnets[..|subnets| - 1] + [subnets[|subnets| - 1]];
    }
  }

  /** The services the restricted mode lets through. */
  predicate LanService(p: Packet) {
    || p.protocol.Icmp?
    || (p.protocol.Udp? && (p.dport == 53 || p.dport == 5353 || p.dport == 1900 || 137 <= p.dport <= 138))
    || (p.protocol.Tcp? && (p.dport == 631 || p.dport == 445 || p.dport == 139))
  }

  function ServiceRule(c: Cidr, ms: seq<Match>): Rule {
    Rule([Dst(c, 32)] + ms, Accept)
  }

  const SERVICES: seq<seq<Match>> :=
    [[IsProtocol(Icmp)], ToPort(Udp, 53, 53), ToPort(Udp, 5353, 5353), ToPort(Udp, 1900, 1900),
     ToPort(Tcp, 631, 631), ToPort(Tcp, 445, 445), ToPort(Udp, 137, 138), ToPort(Tcp, 139, 139)]

  /** One rule per service for one subnet. */
  function ServiceRules(c: Cidr, services: seq<seq<Match>>): seq<Rule> {
    if services == [] then [] else [ServiceRule(c, services[0])] + ServiceRules(c, services[1..])
  }

  function RestrictedRules(subnets: seq<Cidr>): seq<Rule> {
    if subnets == [] then []
    else RestrictedRules(subnets[..|subnets| - 1]) + ServiceRules(subnets[|subnets| - 1], SERVICES)
  }

  /** The eight rules pushed for one subnet. */
  lemma EightRules(c: Cidr)
    ensures ServiceRules(c, SERVICES) ==
            [ServiceRule(c, [IsProtocol(Icmp)]), ServiceRule(c, ToPort(Udp, 53, 53)),
             ServiceRule(c, ToPort(Udp, 5353, 5353)), ServiceRule(c, ToPort(Udp, 1900, 1900)),
             ServiceRule(c, ToPort(Tcp, 631, 631)), ServiceRule(c, ToPort(Tcp, 445, 445)),
             ServiceRule(c, ToPort(Udp, 137, 138)), ServiceRule(c, ToPort(Tcp, 139, 139))]
  {
    ServiceRulesAt(c, SERVICES);
  }

  lemma {:induction false} ServiceRulesAt(c: Cidr, services: seq<seq<Match>>)
    ensures |ServiceRules(c, services)| == |services|
    ensures forall i :: 0 <= i < |services| ==> ServiceRules(c, services)[i] == ServiceRule(c, services[i])
  {
    if services != [] {
      ServiceRulesAt(c, services[1..]);
    }
  }

  method BuildLanRestrictedRules(subnets: seq<Cidr>) returns (rules: seq<Rule>)
    ensures rules == RestrictedRules(subnets)
  {
    rules := [];
    for i := 0 to |subnets|
      invariant rules == RestrictedRules(subnets[..i])
    {
      var c := subnets[i];
      ghost var was := rules;
      rules := rules + [ServiceRule(c, [IsProtocol(Icmp)])];
      rules := rules + [ServiceRule(c, ToPort(Udp, 53, 53))];
      rules := rules + [ServiceRule(c, ToPort(Udp, 5353, 5353))];
      rules := rules + [ServiceRule(c, ToPort(Udp, 1900, 1900))];
      rules := rules + [ServiceRule(c, ToPort(Tcp, 631, 631))];
      rules := rules + [ServiceRule(c, ToPort(Tcp, 445, 445))];
      rules := rules + [ServiceRule(c, ToPort(Udp, 137, 138))];
      rules := rules + [ServiceRule(c, ToPort(Tcp, 139, 139))];
      EightRules(c);
      assert rules == was + ServiceRules(c, SERVICES);
      ghost var soFar := subnets[..i + 1];
      assert soFar[..i] == subnets[..i] && soFar[i] == c;
    }
    assert subnets[..|subnets|] == subnets;
  }

  lemma {:induction false} ServiceVerdict(t: Table, c: Cidr, services: seq<seq<Match>>, p: Packet, d: nat)
    ensures Walk(t, ServiceRules(c, services), p, d) ==
            if InSubnet(c, p.dst, 32) && exists ms <- services :: AllHold(p, ms) then Accepted else Continue
  {
    if services != [] {
      ServiceVerdict(t, c, services[1..], p, d);
      WalkConcat(t, [ServiceRule(c, services[0])], ServiceRules(c, services[1..]), p, d);
      WalkOne(t, ServiceRule(c, services[0]), p, d);
      PrefixedMatch(p, Dst(c, 32), services[0]);
      assert services == [services[0]] + services[1..];
    }
  }

  lemma ServicesMeaning(p: Packet)
    ensures (exists ms <- SERVICES :: AllHold(p, ms)) <==> LanService(p)
  {
    var s := SERVICES;
    OneMatch(p, IsProtocol(Icmp));
    PortMatch(p, Udp, 53, 53);
    PortMatch(p, Udp, 5353, 5353);
    PortMatch(p, Udp, 1900, 1900);
    PortMatch(p, Tcp, 631, 631);
    PortMatch(p, Tcp, 445, 445);
    PortMatch(p, Udp, 137, 138);
    PortMatch(p, Tcp, 139, 139);
    assert s[0] in s && s[1] in s && s[2] in s && s[3] in s && s[4] in s && s[5] in s && s[6] in s && s[7] in s;
  }

  lemma {:induction false} RestrictedVerdict(t: Table, subnets: seq<Cidr>, p: Packet, d: nat)
    ensures Walk(t, RestrictedRules(subnets), p, d) ==
            if InSome(subnets, p.dst, 32) && LanService(p) then Accepted else Continue
  {
    if subnets != [] {
      var init, last := subnets[..|subnets| - 1], subnets[|subnets| - 1];
      RestrictedVerdict(t, init, p, d);
      ServiceVerdict(t, last, SERVICES, p, d);
      ServicesMeaning(p);
      WalkConcat(t, RestrictedRules(init), ServiceRules(last, SERVICES), p, d);
      assert subnets == init + [last];
    }
  }

  /**
   In any chain, replacing the open LAN block by the restricted one for the same
   subnets takes away exactly the packets that reach the block, go to the LAN, use
   no listed service, and are not accepted further down. It never adds any.
   */
  lemma RestrictingLan(t: Table, before: seq<Rule>, subnets: seq<Cidr>, after: seq<Rule>, p: Packet, d: nat)
    ensures var open_ := Walk(t, before + LanRules(subnets, 32) + after, p, d);
            var restricted := Walk(t, before + RestrictedRules(subnets) + after, p, d);
            && (restricted == Accepted ==> open_ == Accepted)
            && (open_ == Accepted && restricted != Accepted <==>
                && Walk(t, before, p, d) == Continue
                && InSome(subnets, p.dst, 32) && !LanService(p)
                && Walk(t, after, p, d) != Accepted)
  {
    WalkConcat(t, before + LanRules(subnets, 32), after, p, d);
    WalkConcat(t, before, LanRules(subnets, 32), p, d);
    WalkConcat(t, before + RestrictedRules(subnets), after, p, d);
    WalkConcat(t, before, RestrictedRules(subnets), p, d);
    LanVerdict(t, subnets, 32, p, d);
    RestrictedVerdict(t, subnets, p, d);
  }
}
