/**
 The boot-time kill switch: its own chain, one jump to it in front of OUTPUT, and the
 exact set of packets that still leave the machine.
 */
module BootKillSwitch {
  import opened Cidr
  import opened PacketFilter
  import opened RuleBlocks
  import opened ChainTeardown

  const BOOT_CHAIN := "SHROUD_BOOT_KS"
  const INSERT_LIMIT: nat := 10
  const DISABLE_LIMIT: nat := 100

  const ESTABLISHED := Rule([StateEstablished], Accept)
  const DHCP := Rule(ToPort(Udp, 67, 68), Accept)

  function BootRulesV4(allowLan: bool, subnets: seq<Cidr>): seq<Rule> {
    [LOOPBACK, ESTABLISHED, DHCP] + (if allowLan then LanRules(ValidSubnets(subnets), 32) else []) + [DROP_ALL]
  }

  function BootRulesV6(allowLan: bool): seq<Rule> {
    [LOOPBACK, ESTABLISHED] + (if allowLan then [LanRule(LINK_LOCAL_V6, 128)] else []) + [DROP_ALL]
  }

  /** The table with the boot switch on. */
  function BootEnabled(t: Table, rules: seq<Rule>): Table
    requires OUTPUT in t
  {
    t[BOOT_CHAIN := rules][OUTPUT := [JumpTo(BOOT_CHAIN)] + RemoveUpTo(t[OUTPUT], JumpTo(BOOT_CHAIN), INSERT_LIMIT)]
  }

  // ---------------------------------------------------------------------
  // The commands, in order
  // ---------------------------------------------------------------------

  /** Create the chain in both tables, or empty it. Only IPv4 is mandatory. */
  method CreateBootChain(v4: Netfilter, v6: Netfilter) returns (ok: bool)
    requires v4 != v6
    modifies v4, v6
    ensures ok == v4.available
    ensures v4.chains == if v4.available then old(v4.chains)[BOOT_CHAIN := []] else old(v4.chains)
    ensures v6.chains == if v4.available && v6.available then old(v6.chains)[BOOT_CHAIN := []] else old(v6.chains)
  {
    ok := v4.Execute(NewChain(BOOT_CHAIN));
    if !ok {
      ok := v4.Execute(FlushChain(BOOT_CHAIN));
      if !ok {
        return;
      }
    }
    var ok6 := v6.Execute(NewChain(BOOT_CHAIN));
    if !ok6 {
      ok6 := v6.Execute(FlushChain(BOOT_CHAIN));
    }
  }

  method Append(fw: Netfilter, rule: Rule) returns (ok: bool)
    requires BOOT_CHAIN in fw.chains && !rule.target.Jump? && RightFamily(rule, fw.bits)
    modifies fw
    ensures ok == fw.available
    ensures fw.chains ==
            if fw.available then old(fw.chains)[BOOT_CHAIN := old(fw.chains)[BOOT_CHAIN] + [rule]] else old(fw.chains)
  {
    ok := fw.Execute(AppendRule(BOOT_CHAIN, rule));
  }

  /** The rule for one detected subnet, if it is valid. */
  function LanRuleIf(c: Cidr): seq<Rule> {
    if IsValidPrivateCidr(c) then [LanRule(c, 32)] else []
  }

  lemma NextLanRule(subnets: seq<Cidr>, i: nat)
    requires i < |subnets|
    ensures LanRules(ValidSubnets(subnets[..i + 1]), 32) == LanRules(ValidSubnets(subnets[..i]), 32) + LanRuleIf(subnets[i])
  {
    var valid := ValidSubnets(subnets[..i]);
    assert subnets[..i + 1][..i] == subnets[..i];
    if IsValidPrivateCidr(subnets[i]) {
      assert ValidSubnets(subnets[..i + 1]) == valid + [subnets[i]];
      assert (valid + [subnets[i]])[..|valid|] == valid;
    } else {
      assert ValidSubnets(subnets[..i + 1]) == valid;
    }
  }

  method AppendLan(v4: Netfilter, c: Cidr)
    requires v4.available && v4.bits == 32 && BOOT_CHAIN in v4.chains
    modifies v4
    ensures v4.chains == old(v4.chains)[BOOT_CHAIN := old(v4.chains)[BOOT_CHAIN] + LanRuleIf(c)]
  {
    if IsValidPrivateCidr(c) {
      var _ := Append(v4, LanRule(c, 32));
    } else {
      assert v4.chains[BOOT_CHAIN] + [] == v4.chains[BOOT_CHAIN];
    }
  }

  /** One rule for each validated subnet. */
  method AddLanRules(v4: Netfilter, subnets: seq<Cidr>)
    requires v4.available && v4.bits == 32 && BOOT_CHAIN in v4.chains
    modifies v4
    ensures v4.chains == old(v4.chains)[BOOT_CHAIN := old(v4.chains)[BOOT_CHAIN] + LanRules(ValidSubnets(subnets), 32)]
  {
    ghost var start := v4.chains[BOOT_CHAIN];
    assert start + LanRules(ValidSubnets(subnets[..0]), 32) == start;
    for i := 0 to |subnets|
      invariant v4.chains == old(v4.chains)[BOOT_CHAIN := start + LanRules(ValidSubnets(subnets[..i]), 32)]
    {
      NextLanRule(subnets, i);
      ghost var lan := LanRules(ValidSubnets(subnets[..i]), 32);
      assert start + lan + LanRuleIf(subnets[i]) == start + (lan + LanRuleIf(subnets[i]));
      AppendLan(v4, subnets[i]);
    }
    assert subnets[..|subnets|] == subnets;
  }

  method AddBootRulesV4(v4: Netfilter, allowLan: bool, subnets: seq<Cidr>)
    requires v4.available && v4.bits == 32 && BOOT_CHAIN in v4.chains
    modifies v4
    ensures v4.chains == old(v4.chains)[BOOT_CHAIN := old(v4.chains)[BOOT_CHAIN] + BootRulesV4(allowLan, subnets)]
  {
    ghost var start := v4.chains[BOOT_CHAIN];
    var _ := Append(v4, LOOPBACK);
    var _ := Append(v4, ESTABLISHED);
    var _ := Append(v4, DHCP);
    if allowLan {
      AddLanRules(v4, subnets);
    }
    var _ := Append(v4, DROP_ALL);
    ghost var lan := if allowLan then LanRules(ValidSubnets(subnets), 32) else [];
    assert v4.chains[BOOT_CHAIN] == start + ([LOOPBACK, ESTABLISHED, DHCP] + lan + [DROP_ALL]);
  }

  method AddBootRulesV6(v6: Netfilter, allowLan: bool)
    requires v6.bits == 128 && (v6.available ==> BOOT_CHAIN in v6.chains)
    modifies v6
    ensures v6.chains ==
            if v6.available then old(v6.chains)[BOOT_CHAIN := old(v6.chains)[BOOT_CHAIN] + BootRulesV6(allowLan)]
            else old(v6.chains)
  {
    if !v6.available {
      return;
    }
    ghost var start := v6.chains[BOOT_CHAIN];
    var _ := Append(v6, LOOPBACK);
    var _ := Append(v6, ESTABLISHED);
    if allowLan {
      var _ := Append(v6, LanRule(LINK_LOCAL_V6, 128));
    }
    var _ := Append(v6, DROP_ALL);
    assert v6.chains[BOOT_CHAIN] == start + BootRulesV6(allowLan);
  }

  /** Remove old jumps, then put a fresh one in front. */
  method InsertBootChainJump(fw: Netfilter) returns (ok: bool)
    requires fw.available ==> BOOT_CHAIN in fw.chains && OUTPUT in fw.chains
    modifies fw
    ensures ok == fw.available
    ensures fw.chains ==
            if fw.available then
              old(fw.chains)[OUTPUT :=
                [JumpTo(BOOT_CHAIN)] + RemoveUpTo(old(fw.chains)[OUTPUT], JumpTo(BOOT_CHAIN), INSERT_LIMIT)]
            else old(fw.chains)
  {
    fw.DeleteAll(OUTPUT, JumpTo(BOOT_CHAIN), INSERT_LIMIT);
    ok := fw.Execute(InsertRule(OUTPUT, 1, JumpTo(BOOT_CHAIN)));
    if fw.available {
      var rest := RemoveUpTo(old(fw.chains)[OUTPUT], JumpTo(BOOT_CHAIN), INSERT_LIMIT);
      assert rest[..0] + [JumpTo(BOOT_CHAIN)] + rest[0..] == [JumpTo(BOOT_CHAIN)] + rest;
    }
  }

  /** Turn the boot switch on. Without the IPv4 binary it fails and touches nothing. */
  method EnableBootKillswitch(v4: Netfilter, v6: Netfilter, allowLan: bool, subnets: seq<Cidr>) returns (ok: bool)
    requires v4 != v6 && v4.bits == 32 && v6.bits == 128 && OUTPUT in v4.chains && OUTPUT in v6.chains
    modifies v4, v6
    ensures ok == v4.available
    ensures v4.chains == if ok then BootEnabled(old(v4.chains), BootRulesV4(allowLan, subnets)) else old(v4.chains)
    ensures v6.chains == if ok && v6.available then BootEnabled(old(v6.chains), BootRulesV6(allowLan)) else old(v6.chains)
  {
    ok := CreateBootChain(v4, v6);
    if !ok {
      return;
    }
    AddBootRulesV4(v4, allowLan, subnets);
    AddBootRulesV6(v6, allowLan);
    assert [] + BootRulesV4(allowLan, subnets) == BootRulesV4(allowLan, subnets);
    assert [] + BootRulesV6(allowLan) == BootRulesV6(allowLan);
    ok := InsertBootChainJump(v4);
    var _ := InsertBootChainJump(v6);
  }

  /** Turn the boot switch off in one table. */
  method DisableIn(fw: Netfilter)
    requires OUTPUT in fw.chains
    modifies fw
    ensures fw.chains == if fw.available then TornDown(old(fw.chains), BOOT_CHAIN, DISABLE_LIMIT) else old(fw.chains)
  {
    fw.DeleteAll(OUTPUT, JumpTo(BOOT_CHAIN), DISABLE_LIMIT);
    var _ := fw.Execute(FlushChain(BOOT_CHAIN));
    var _ := fw.Execute(DeleteChain(BOOT_CHAIN));
    TeardownSteps(old(fw.chains), BOOT_CHAIN, DISABLE_LIMIT);
  }

  method DisableBootKillswitch(v4: Netfilter, v6: Netfilter)
    requires v4 != v6 && OUTPUT in v4.chains && OUTPUT in v6.chains
    modifies v4, v6
    ensures v4.chains == if v4.available then TornDown(old(v4.chains), BOOT_CHAIN, DISABLE_LIMIT) else old(v4.chains)
    ensures v6.chains == if v6.available then TornDown(old(v6.chains), BOOT_CHAIN, DISABLE_LIMIT) else old(v6.chains)
  {
    DisableIn(v4);
    DisableIn(v6);
  }

  // ---------------------------------------------------------------------
  // Enabling repeatedly
  // ---------------------------------------------------------------------

  /** The number of jumps to the boot chain. */
  function Jumps(t: Table): nat
    requires OUTPUT in t
  {
    Count(t[OUTPUT], JumpTo(BOOT_CHAIN))
  }

  function EnabledTimes(t: Table, rules: seq<Rule>, n: nat): (t': Table)
    requires OUTPUT in t
    ensures OUTPUT in t'
  {
    if n == 0 then t else BootEnabled(EnabledTimes(t, rules, n - 1), rules)
  }

  lemma EnabledOnce(t: Table, rules: seq<Rule>)
    requires OUTPUT in t
    ensures var t' := BootEnabled(t, rules);
            && Jumps(t') == (if Jumps(t) <= 10 then 1 else Jumps(t) - 9)
            && Without(t'[OUTPUT], JumpTo(BOOT_CHAIN)) == Without(t[OUTPUT], JumpTo(BOOT_CHAIN))
  {
    var jump := JumpTo(BOOT_CHAIN);
    var rest := RemoveUpTo(t[OUTPUT], jump, INSERT_LIMIT);
    RemoveUpToFacts(t[OUTPUT], jump, INSERT_LIMIT);
    assert ([jump] + rest)[1..] == rest;
  }

  /**
   After n enables: the jump comes first, the rules are there once, every other rule
   of OUTPUT keeps its place, and of `j` jumps there were, 1 + max(0, j - 1 - 9n)
   are left.
   */
  lemma {:induction false} EnabledRepeatedly(t: Table, rules: seq<Rule>, n: nat)
    requires OUTPUT in t && n >= 1
    ensures var t' := EnabledTimes(t, rules, n);
            && t'.Keys == t.Keys + {BOOT_CHAIN}
            && t'[BOOT_CHAIN] == rules
            && t'[OUTPUT] != [] && t'[OUTPUT][0] == JumpTo(BOOT_CHAIN)
            && Without(t'[OUTPUT], JumpTo(BOOT_CHAIN)) == Without(t[OUTPUT], JumpTo(BOOT_CHAIN))
            && Jumps(t') == 1 + (if Jumps(t) <= 1 + 9 * n then 0 else Jumps(t) - 1 - 9 * n)
            && (forall k <- t :: k != BOOT_CHAIN && k != OUTPUT ==> t'[k] == t[k])
  {
    EnabledOnce(EnabledTimes(t, rules, n - 1), rules);
    if n > 1 {
      EnabledRepeatedly(t, rules, n - 1);
    }
  }

  /** One enable leaves exactly one jump, and then any number does, iff at most 10 were there. */
  lemma SingleJumpIff(t: Table, rules: seq<Rule>)
    requires OUTPUT in t
    ensures Jumps(BootEnabled(t, rules)) == 1 <==> Jumps(t) <= 10
    ensures Jumps(t) <= 10 ==>
              BootEnabled(t, rules)[OUTPUT] == [JumpTo(BOOT_CHAIN)] + Without(t[OUTPUT], JumpTo(BOOT_CHAIN))
  {
    EnabledOnce(t, rules);
    RemoveUpToFacts(t[OUTPUT], JumpTo(BOOT_CHAIN), INSERT_LIMIT);
  }

  /** Enabling what was just enabled changes nothing. */
  lemma EnabledTwice(t: Table, rules: seq<Rule>)
    requires OUTPUT in t && Jumps(t) <= 10
    ensures BootEnabled(BootEnabled(t, rules), rules) == BootEnabled(t, rules)
  {
    var t1 := BootEnabled(t, rules);
    SingleJumpIff(t, rules);
    SingleJumpIff(t1, rules);
    EnabledOnce(t, rules);
    assert BootEnabled(t1, rules)[OUTPUT] == t1[OUTPUT];
  }

  lemma {:induction false} RepeatedIsOnce(t: Table, rules: seq<Rule>, n: nat)
    requires OUTPUT in t && Jumps(t) <= 10 && n >= 1
    ensures EnabledTimes(t, rules, n) == BootEnabled(t, rules)
  {
    if n == 1 {
      assert EnabledTimes(t, rules, 0) == t;
    } else {
      RepeatedIsOnce(t, rules, n - 1);
      EnabledTwice(t, rules);
    }
  }

  /**
   Disabling after n enables leaves OUTPUT's other rules in order, every other chain
   as it was, and no boot chain, as long as at most 100 + 9n jumps were there before.
   With more than that the chain survives.
   */
  lemma DisableUndoesEnable(t: Table, rules: seq<Rule>, n: nat)
    requires OUTPUT in t && n >= 1 && !OtherReference(t, BOOT_CHAIN)
    ensures BOOT_CHAIN !in TornDown(EnabledTimes(t, rules, n), BOOT_CHAIN, DISABLE_LIMIT) <==> Jumps(t) <= 100 + 9 * n
    ensures Jumps(t) <= 100 + 9 * n ==>
              TornDown(EnabledTimes(t, rules, n), BOOT_CHAIN, DISABLE_LIMIT)
              == (t - {BOOT_CHAIN})[OUTPUT := Without(t[OUTPUT], JumpTo(BOOT_CHAIN))]
  {
    var t' := EnabledTimes(t, rules, n);
    EnabledRepeatedly(t, rules, n);
    EnabledTimesUnreferenced(t, rules, n);
    if Jumps(t') <= DISABLE_LIMIT {
      TornDownClean(t', BOOT_CHAIN, DISABLE_LIMIT);
    }
  }

  lemma {:induction false} EnabledTimesUnreferenced(t: Table, rules: seq<Rule>, n: nat)
    requires OUTPUT in t && !OtherReference(t, BOOT_CHAIN)
    ensures !OtherReference(EnabledTimes(t, rules, n), BOOT_CHAIN)
  {
    if n > 0 {
      EnabledTimesUnreferenced(t, rules, n - 1);
      EnabledStaysUnreferenced(EnabledTimes(t, rules, n - 1), rules);
    }
  }

  lemma EnabledStaysUnreferenced(t: Table, rules: seq<Rule>)
    requires OUTPUT in t && !OtherReference(t, BOOT_CHAIN)
    ensures !OtherReference(BootEnabled(t, rules), BOOT_CHAIN)
  {
    var t', jump := BootEnabled(t, rules), JumpTo(BOOT_CHAIN);
    forall k | k in t' && k != BOOT_CHAIN ensures !RefersOtherwise(k, t'[k], BOOT_CHAIN) {
      assert !RefersOtherwise(k, t[k], BOOT_CHAIN);
      if k == OUTPUT {
        forall r | r in t'[k] && r != jump ensures r in t[k] {
          RemoveUpToOthers(t[OUTPUT], jump, INSERT_LIMIT, r);
        }
      }
    }
  }

  /** On a machine that never had the boot switch, enabling and disabling is a round trip. */
  lemma BootRoundTrip(t: Table, rules: seq<Rule>, n: nat)
    requires OUTPUT in t && Closed(t) && BOOT_CHAIN !in t && n >= 1
    ensures TornDown(EnabledTimes(t, rules, n), BOOT_CHAIN, DISABLE_LIMIT) == t
  {
    AbsentUnreferenced(t, BOOT_CHAIN);
    DisableUndoesEnable(t, rules, n);
    NoneLeft(t[OUTPUT], JumpTo(BOOT_CHAIN));
  }

  // ---------------------------------------------------------------------
  // What still gets out
  // ---------------------------------------------------------------------

  predicate BootAllowsV4(p: Packet, allowLan: bool, subnets: seq<Cidr>) {
    || p.outIface == "lo"
    || p.established
    || (p.protocol.Udp? && 67 <= p.dport <= 68)
    || (allowLan && exists c <- subnets :: 8 <= c.prefix <= 32 && InPrivateRange(c.addr) && InSubnet(c, p.dst, 32))
  }

  /** Detected subnets have 32-bit addresses. */
  predicate Addresses(subnets: seq<Cidr>) {
    forall c <- subnets :: c.addr < Pow2(32)
  }

  predicate BootAllowsV6(p: Packet, allowLan: bool) {
    p.outIface == "lo" || p.established || (allowLan && Shr(p.dst, 118) == 0x3fa)
  }

  lemma HeadVerdict(t: Table, p: Packet, d: nat)
    ensures Walk(t, [LOOPBACK, ESTABLISHED], p, d) == if p.outIface == "lo" || p.established then Accepted else Continue
  {
    assert [LOOPBACK, ESTABLISHED] == [LOOPBACK] + [ESTABLISHED];
    WalkConcat(t, [LOOPBACK], [ESTABLISHED], p, d);
    WalkOne(t, LOOPBACK, p, d);
    WalkOne(t, ESTABLISHED, p, d);
    OneMatch(p, OutIface("lo"));
    OneMatch(p, StateEstablished);
  }

  lemma BootChainVerdictV4(t: Table, allowLan: bool, subnets: seq<Cidr>, p: Packet, d: nat)
    requires Addresses(subnets)
    ensures Walk(t, BootRulesV4(allowLan, subnets), p, d) == if BootAllowsV4(p, allowLan, subnets) then Accepted else Dropped
  {
    var lan := if allowLan then LanRules(ValidSubnets(subnets), 32) else [];
    assert BootRulesV4(allowLan, subnets) == [LOOPBACK, ESTABLISHED] + ([DHCP] + (lan + [DROP_ALL]));
    WalkConcat(t, [LOOPBACK, ESTABLISHED], [DHCP] + (lan + [DROP_ALL]), p, d);
    WalkConcat(t, [DHCP], lan + [DROP_ALL], p, d);
    WalkConcat(t, lan, [DROP_ALL], p, d);
    HeadVerdict(t, p, d);
    WalkOne(t, DHCP, p, d);
    PortMatch(p, Udp, 67, 68);
    LanVerdict(t, ValidSubnets(subnets), 32, p, d);
    WalkOne(t, DROP_ALL, p, d);
    forall c: Cidr ensures c in ValidSubnets(subnets) <==> c in subnets && IsValidPrivateCidr(c) {
      ValidSubnetsMember(subnets, c);
    }
    LanByRange(subnets, p.dst);
  }

  /** The subnets whose rules are written, by range. */
  lemma LanByRange(subnets: seq<Cidr>, dst: nat)
    requires Addresses(subnets)
    ensures InSome(ValidSubnets(subnets), dst, 32) <==>
            exists c <- subnets :: 8 <= c.prefix <= 32 && InPrivateRange(c.addr) && InSubnet(c, dst, 32)
  {
    forall c: Cidr | c in subnets
      ensures c in ValidSubnets(subnets) <==> 8 <= c.prefix <= 32 && InPrivateRange(c.addr)
    {
      ValidSubnetsMember(subnets, c);
      AcceptedV4Iff(c);
    }
    forall c: Cidr | c in ValidSubnets(subnets) ensures c in subnets {
      ValidSubnetsMember(subnets, c);
    }
  }

  lemma BootChainVerdictV6(t: Table, allowLan: bool, p: Packet, d: nat)
    ensures Walk(t, BootRulesV6(allowLan), p, d) == if BootAllowsV6(p, allowLan) then Accepted else Dropped
  {
    var rule := LanRule(LINK_LOCAL_V6, 128);
    var lan := if allowLan then [rule] else [];
    assert BootRulesV6(allowLan) == [LOOPBACK, ESTABLISHED] + (lan + [DROP_ALL]);
    WalkConcat(t, [LOOPBACK, ESTABLISHED], lan + [DROP_ALL], p, d);
    WalkConcat(t, lan, [DROP_ALL], p, d);
    HeadVerdict(t, p, d);
    WalkOne(t, rule, p, d);
    OneMatch(p, Dst(LINK_LOCAL_V6, 128));
    LinkLocalBits(p.dst);
    WalkOne(t, DROP_ALL, p, d);
  }

  /**
   With the switch on, whatever else OUTPUT holds and whatever its policy, an IPv4
   packet leaves exactly when it is loopback, established or related, DHCP, or bound
   for a detected subnet of prefix 8 to 32 in one of the four private ranges.
   */
  lemma BootOutputVerdictV4(t: Table, allowLan: bool, subnets: seq<Cidr>, p: Packet, d: nat)
    requires OUTPUT in t && d >= 1 && Addresses(subnets)
    ensures var t' := BootEnabled(t, BootRulesV4(allowLan, subnets));
            Walk(t', t'[OUTPUT], p, d) == if BootAllowsV4(p, allowLan, subnets) then Accepted else Dropped
  {
    var rules := BootRulesV4(allowLan, subnets);
    var t' := BootEnabled(t, rules);
    BootChainVerdictV4(t', allowLan, subnets, p, d - 1);
    FrontJumpDecides(t', BOOT_CHAIN, RemoveUpTo(t[OUTPUT], JumpTo(BOOT_CHAIN), INSERT_LIMIT), p, d);
  }

  /** The same for IPv6, where only loopback, established and link-local traffic is left. */
  lemma BootOutputVerdictV6(t: Table, allowLan: bool, p: Packet, d: nat)
    requires OUTPUT in t && d >= 1
    ensures var t' := BootEnabled(t, BootRulesV6(allowLan));
            Walk(t', t'[OUTPUT], p, d) == if BootAllowsV6(p, allowLan) then Accepted else Dropped
  {
    var t' := BootEnabled(t, BootRulesV6(allowLan));
    BootChainVerdictV6(t', allowLan, p, d - 1);
    FrontJumpDecides(t', BOOT_CHAIN, RemoveUpTo(t[OUTPUT], JumpTo(BOOT_CHAIN), INSERT_LIMIT), p, d);
  }

  // ---------------------------------------------------------------------
  // Enabling again: the jump is in place while the chain is refilled
  // ---------------------------------------------------------------------

  predicate AcceptsOnly(rules: seq<Rule>) {
    forall r <- rules :: r.target.Accept?
  }

  lemma {:induction false} NeverDrops(t: Table, rules: seq<Rule>, p: Packet, d: nat)
    requires AcceptsOnly(rules)
    ensures Walk(t, rules, p, d) != Dropped
    decreases |rules|
  {
    if rules != [] {
      assert rules[0] in rules;
      NeverDrops(t, rules[1..], p, d);
    }
  }

  lemma {:induction false} LanAcceptsOnly(subnets: seq<Cidr>, bits: nat)
    ensures AcceptsOnly(LanRules(subnets, bits))
  {
    if subnets != [] {
      LanAcceptsOnly(subnets[..|subnets| - 1], bits);
    }
  }

  /** All boot rules but the last accept. */
  lemma BootHeadAccepts(allowLan: bool, subnets: seq<Cidr>, k: nat)
    requires k < |BootRulesV4(allowLan, subnets)|
    ensures AcceptsOnly(BootRulesV4(allowLan, subnets)[..k])
  {
    var rules := BootRulesV4(allowLan, subnets);
    var head := [LOOPBACK, ESTABLISHED, DHCP] + if allowLan then LanRules(ValidSubnets(subnets), 32) else [];
    LanAcceptsOnly(ValidSubnets(subnets), 32);
    assert AcceptsOnly(head) && rules[..k] == head[..k];
    assert forall r <- head[..k] :: r in head;
  }

  lemma BootHeadAcceptsV6(allowLan: bool, k: nat)
    requires k < |BootRulesV6(allowLan)|
    ensures AcceptsOnly(BootRulesV6(allowLan)[..k])
  {
    var rules := BootRulesV6(allowLan);
    var head := [LOOPBACK, ESTABLISHED] + if allowLan then [LanRule(LINK_LOCAL_V6, 128)] else [];
    assert AcceptsOnly(head) && rules[..k] == head[..k];
    assert forall r <- head[..k] :: r in head;
  }

  /**
   The commands of an enable that one table sees. One that fails leaves it as it is, and so
   does the flush of a chain that was just created.
   */
  function BootScript(rules: seq<Rule>): (s: seq<Command>)
    ensures |s| == |rules| + 3 + INSERT_LIMIT
  {
    [NewChain(BOOT_CHAIN), FlushChain(BOOT_CHAIN)]
    + seq(|rules|, i requires 0 <= i < |rules| => AppendRule(BOOT_CHAIN, rules[i]))
    + seq(INSERT_LIMIT, _ => DeleteRule(OUTPUT, JumpTo(BOOT_CHAIN)))
    + [InsertRule(OUTPUT, 1, JumpTo(BOOT_CHAIN))]
  }

  /** The table after `k` commands, in closed form. */
  function BootStage(t: Table, rules: seq<Rule>, k: nat): Table
    requires OUTPUT in t && k <= |rules| + 3 + INSERT_LIMIT
  {
    var n := |rules|;
    if k == 0 || (k == 1 && BOOT_CHAIN in t) then t
    else if k == 1 then t[BOOT_CHAIN := []]
    else if k <= n + 2 then t[BOOT_CHAIN := rules[..k - 2]]
    else if k <= n + 2 + INSERT_LIMIT then
      t[BOOT_CHAIN := rules][OUTPUT := RemoveUpTo(t[OUTPUT], JumpTo(BOOT_CHAIN), k - n - 2)]
    else BootEnabled(t, rules)
  }

  lemma BootStageStep(t: Table, rules: seq<Rule>, k: nat)
    requires OUTPUT in t && JumpFree(rules) && k < |rules| + 3 + INSERT_LIMIT
    ensures Do(BootStage(t, rules, k), BootScript(rules)[k]) == BootStage(t, rules, k + 1)
  {
    var n, jump := |rules|, JumpTo(BOOT_CHAIN);
    if k == 1 {
      assert rules[..0] == [];
    } else if 2 <= k < n + 2 {
      assert rules[k - 2] in rules && rules[..k - 2] + [rules[k - 2]] == rules[..k - 1];
    } else if n + 2 <= k < n + 2 + INSERT_LIMIT {
      assert rules[..n] == rules;
      var left := RemoveUpTo(t[OUTPUT], jump, k - n - 2);
      RemoveFirstFacts(left, jump);
      assert t[BOOT_CHAIN := rules][OUTPUT := t[OUTPUT]] == t[BOOT_CHAIN := rules];
    } else if k == n + 2 + INSERT_LIMIT {
      var left := RemoveUpTo(t[OUTPUT], jump, INSERT_LIMIT);
      assert left[..0] + [jump] + left[0..] == [jump] + left;
    }
  }

  /** Every stage of an enable has that form; the last one is the switch on. */
  lemma {:induction false} BootStageIs(t: Table, rules: seq<Rule>, k: nat)
    requires OUTPUT in t && JumpFree(rules) && k <= |rules| + 3 + INSERT_LIMIT
    ensures After(t, BootScript(rules)[..k]) == BootStage(t, rules, k)
  {
    if k > 0 {
      var script := BootScript(rules);
      BootStageIs(t, rules, k - 1);
      BootStageStep(t, rules, k - 1);
      assert script[..k][..k - 1] == script[..k - 1] && script[..k][k - 1] == script[k - 1];
    }
  }

  /** The rules of a switch: any that accept, then the one that drops. */
  predicate IsSwitch(rules: seq<Rule>) {
    rules != [] && rules[|rules| - 1] == DROP_ALL && AcceptsOnly(rules[..|rules| - 1])
  }

  lemma BootRulesAreSwitches(allowLan: bool, subnets: seq<Cidr>)
    ensures IsSwitch(BootRulesV4(allowLan, subnets)) && IsSwitch(BootRulesV6(allowLan))
  {
    BootHeadAccepts(allowLan, subnets, |BootRulesV4(allowLan, subnets)| - 1);
    BootHeadAcceptsV6(allowLan, |BootRulesV6(allowLan)| - 1);
  }

  /** The packet is one the switch must stop. */
  predicate MustStop(rules: seq<Rule>, p: Packet) {
    Walk(map[], rules, p, 0) == Dropped
  }

  lemma MustStopIff(allowLan: bool, subnets: seq<Cidr>, p: Packet)
    requires Addresses(subnets)
    ensures MustStop(BootRulesV4(allowLan, subnets), p) <==> !BootAllowsV4(p, allowLan, subnets)
    ensures MustStop(BootRulesV6(allowLan), p) <==> !BootAllowsV6(p, allowLan)
  {
    BootChainVerdictV4(map[], allowLan, subnets, p, 0);
    BootChainVerdictV6(map[], allowLan, p, 0);
  }

  lemma SwitchJumpFree(rules: seq<Rule>)
    requires IsSwitch(rules)
    ensures JumpFree(rules)
  {
    forall r | r in rules ensures !r.target.Jump? {
      assert rules == rules[..|rules| - 1] + [DROP_ALL];
    }
  }

  /** A part of the chain does nothing to such a packet, the whole chain drops it. */
  lemma PartPasses(t: Table, rules: seq<Rule>, k: nat, p: Packet, d: nat)
    requires IsSwitch(rules) && MustStop(rules, p) && k <= |rules|
    ensures Walk(t, rules[..k], p, d) == if k < |rules| then Continue else Dropped
  {
    SwitchJumpFree(rules);
    JumpFreeLocal(map[], t, rules, p, 0, d);
    if k < |rules| {
      var head := rules[..|rules| - 1];
      assert forall r <- rules[..k] :: r in head by {
        assert rules[..k] == head[..k];
      }
      NeverDrops(t, rules[..k], p, d);
      assert rules == rules[..k] + rules[k..];
      WalkConcat(t, rules[..k], rules[k..], p, d);
    } else {
      assert rules[..k] == rules;
    }
  }

  /** The table as it is with the switch off. */
  function Off(t: Table): Table
    requires OUTPUT in t
  {
    (t - {BOOT_CHAIN})[OUTPUT := Without(t[OUTPUT], JumpTo(BOOT_CHAIN))]
  }

  /** The verdict when every jump to the switch drops: what comes before the first one decides, else it does. */
  function UpToJump(t: Table, rules: seq<Rule>, p: Packet, d: nat): Verdict {
    if rules == [] then Continue
    else if rules[0] == JumpTo(BOOT_CHAIN) then Dropped
    else
      var v := Walk(t, [rules[0]], p, d);
      if v != Continue then v else UpToJump(t, rules[1..], p, d)
  }

  /** Nothing but plain jumps in OUTPUT leads to the boot chain, and nothing leads to OUTPUT. */
  predicate Isolated(t: Table)
    requires OUTPUT in t
  {
    forall k <- t :: k != BOOT_CHAIN ==>
                       forall r <- t[k] :: r.target.Jump? && r.target.chain in {BOOT_CHAIN, OUTPUT} ==>
                                             k == OUTPUT && r == JumpTo(BOOT_CHAIN)
  }

  /** A stage differs from the table without the switch in its chain and in OUTPUT only. */
  predicate IsStageOf(stage: Table, t: Table)
    requires OUTPUT in t
  {
    OUTPUT in stage && BOOT_CHAIN in stage && AgreeOutside(stage, Off(t), {BOOT_CHAIN, OUTPUT})
  }

  predicate PlainOutput(rules: seq<Rule>) {
    forall r <- rules :: r.target.Jump? && r.target.chain in {BOOT_CHAIN, OUTPUT} ==> r == JumpTo(BOOT_CHAIN)
  }

  lemma OneRule(stage: Table, t: Table, r: Rule, p: Packet, d: nat)
    requires OUTPUT in t && IsStageOf(stage, t) && PlainOutput([r]) && r != JumpTo(BOOT_CHAIN)
    ensures Walk(stage, [r], p, d) == Walk(Off(t), [r], p, d)
  {
    assert r in [r];
    WalkAgrees(stage, Off(t), {BOOT_CHAIN, OUTPUT}, [r], p, d);
  }

  lemma TheJump(stage: Table, p: Packet, d: nat)
    requires BOOT_CHAIN in stage && d >= 1
    ensures Walk(stage, [JumpTo(BOOT_CHAIN)], p, d) == Walk(stage, stage[BOOT_CHAIN], p, d - 1)
  {
    assert [JumpTo(BOOT_CHAIN)][1..] == [];
  }

  /** With a chain that does nothing to the packet, the jumps might as well not be there. */
  lemma {:induction false} InertJumps(stage: Table, t: Table, rules: seq<Rule>, p: Packet, d: nat)
    requires OUTPUT in t && IsStageOf(stage, t) && PlainOutput(rules) && d >= 1
    requires Walk(stage, stage[BOOT_CHAIN], p, d - 1) == Continue
    ensures Walk(stage, rules, p, d) == Walk(Off(t), Without(rules, JumpTo(BOOT_CHAIN)), p, d)
    decreases |rules|
  {
    if rules != [] {
      var r, rest := rules[0], Without(rules[1..], JumpTo(BOOT_CHAIN));
      InertJumps(stage, t, rules[1..], p, d);
      assert rules == [r] + rules[1..];
      WalkConcat(stage, [r], rules[1..], p, d);
      if r == JumpTo(BOOT_CHAIN) {
        TheJump(stage, p, d);
        assert Without(rules, r) == rest;
      } else {
        OneRule(stage, t, r, p, d);
        WalkConcat(Off(t), [r], rest, p, d);
      }
    }
  }

  /** With a chain that drops the packet, the first jump is the end. */
  lemma {:induction false} DroppingJumps(stage: Table, t: Table, rules: seq<Rule>, p: Packet, d: nat)
    requires OUTPUT in t && IsStageOf(stage, t) && PlainOutput(rules) && d >= 1
    requires Walk(stage, stage[BOOT_CHAIN], p, d - 1) == Dropped
    ensures Walk(stage, rules, p, d) == UpToJump(Off(t), rules, p, d)
    decreases |rules|
  {
    if rules != [] {
      var r := rules[0];
      DroppingJumps(stage, t, rules[1..], p, d);
      assert rules == [r] + rules[1..];
      WalkConcat(stage, [r], rules[1..], p, d);
      if r == JumpTo(BOOT_CHAIN) {
        TheJump(stage, p, d);
      } else {
        OneRule(stage, t, r, p, d);
      }
    }
  }

  lemma {:induction false} RemoveUpToSubset(rules: seq<Rule>, r: Rule, n: nat)
    ensures forall q <- RemoveUpTo(rules, r, n) :: q in rules
  {
    if n > 0 {
      RemoveUpToSubset(rules, r, n - 1);
      RemoveFirstSubset(RemoveUpTo(rules, r, n - 1), r);
    }
  }

  lemma {:induction false} RemoveFirstSubset(rules: seq<Rule>, r: Rule)
    ensures forall q <- RemoveFirst(rules, r) :: q in rules
  {
    if rules != [] && rules[0] != r {
      RemoveFirstSubset(rules[1..], r);
    }
  }

  lemma StagesAreStages(t: Table, rules: seq<Rule>, k: nat)
    requires OUTPUT in t && Isolated(t) && 2 <= k <= |rules| + 3 + INSERT_LIMIT
    ensures var stage := BootStage(t, rules, k); IsStageOf(stage, t) && PlainOutput(stage[OUTPUT])
  {
    var stage := BootStage(t, rules, k);
    var xs := {BOOT_CHAIN, OUTPUT};
    RemoveUpToSubset(t[OUTPUT], JumpTo(BOOT_CHAIN), if k <= |rules| + 2 then 0 else k - |rules| - 2);
    RemoveUpToSubset(t[OUTPUT], JumpTo(BOOT_CHAIN), INSERT_LIMIT);
    assert stage.Keys - xs == t.Keys - xs == Off(t).Keys - xs;
    forall k' | k' in stage && k' !in xs ensures Off(t)[k'] == stage[k'] && !RefersInto(stage[k'], xs) {
      assert k' in t.Keys - xs && stage[k'] == t[k'];
    }
  }

  /**
   Enabling, command by command, for every packet the switch must stop, on every table and
   whatever jumps OUTPUT holds. Until the chain is flushed the old behaviour holds. Then,
   until the drop rule is back, the packet is treated as with the switch off. While the
   old jumps are deleted one by one, only what comes before the first remaining one can
   let it out, and with none left it is treated as with the switch off again. Once the
   new jump is in front it is dropped.
   */
  lemma EnableStages(t: Table, rules: seq<Rule>, k: nat, p: Packet, d: nat)
    requires OUTPUT in t && Isolated(t) && IsSwitch(rules) && MustStop(rules, p) && d >= 1
    requires 2 <= k <= |rules| + 3 + INSERT_LIMIT
    ensures var stage, n, jump := BootStage(t, rules, k), |rules|, JumpTo(BOOT_CHAIN);
            Walk(stage, stage[OUTPUT], p, d) ==
            if k < n + 2 then Walk(Off(t), Off(t)[OUTPUT], p, d)
            else if k <= n + 2 + INSERT_LIMIT then UpToJump(Off(t), RemoveUpTo(t[OUTPUT], jump, k - n - 2), p, d)
            else Dropped
  {
    var stage, n := BootStage(t, rules, k), |rules|;
    StagesAreStages(t, rules, k);
    if k < n + 2 {
      PartPasses(stage, rules, k - 2, p, d - 1);
      InertJumps(stage, t, t[OUTPUT], p, d);
    } else {
      PartPasses(stage, rules, n, p, d - 1);
      assert rules[..n] == rules;
      DroppingJumps(stage, t, stage[OUTPUT], p, d);
    }
  }

  /** A run without the jump in it. */
  lemma {:induction false} NoJumpUpTo(t: Table, rules: seq<Rule>, p: Packet, d: nat)
    requires JumpTo(BOOT_CHAIN) !in rules
    ensures UpToJump(t, rules, p, d) == Walk(t, rules, p, d)
  {
    if rules != [] {
      NoJumpUpTo(t, rules[1..], p, d);
      assert rules == [rules[0]] + rules[1..];
      WalkConcat(t, [rules[0]], rules[1..], p, d);
    }
  }

  /** The drop rule is not back, or no jump is there. */
  predicate IsOpen(rules: seq<Rule>, k: nat) {
    2 <= k < |rules| + 2 || |rules| + 3 <= k <= |rules| + 2 + INSERT_LIMIT
  }

  lemma OneJumpGone(rest: seq<Rule>, n: nat)
    requires JumpTo(BOOT_CHAIN) !in rest && n >= 1
    ensures RemoveUpTo([JumpTo(BOOT_CHAIN)] + rest, JumpTo(BOOT_CHAIN), n) == rest
    ensures Without([JumpTo(BOOT_CHAIN)] + rest, JumpTo(BOOT_CHAIN)) == rest
  {
    var jump := JumpTo(BOOT_CHAIN);
    RemoveFirstFacts(rest, jump);
    NoneLeft(rest, jump);
    assert ([jump] + rest)[1..] == rest;
    RemoveUpToFacts([jump] + rest, jump, n);
  }

  /**
   Enabling a switch that is on, with its one jump in front: at every stage a packet that
   both the old and the new rules must stop meets the rest of OUTPUT, as with the switch
   off, exactly when the drop rule is not back or no jump is there; otherwise it is
   dropped. There are two such windows.
   */
  lemma EnableWindows(t: Table, rest: seq<Rule>, old_: seq<Rule>, rules: seq<Rule>, k: nat, p: Packet, d: nat)
    requires OUTPUT in t && BOOT_CHAIN in t && Isolated(t) && d >= 1
    requires t[OUTPUT] == [JumpTo(BOOT_CHAIN)] + rest && JumpTo(BOOT_CHAIN) !in rest && t[BOOT_CHAIN] == old_
    requires IsSwitch(old_) && IsSwitch(rules) && MustStop(old_, p) && MustStop(rules, p)
    requires k <= |BootScript(rules)|
    ensures var stage := After(t, BootScript(rules)[..k]);
            && OUTPUT in stage
            && Walk(stage, stage[OUTPUT], p, d) == if IsOpen(rules, k) then Walk(Off(t), rest, p, d) else Dropped
  {
    SwitchJumpFree(rules);
    BootStageIs(t, rules, k);
    OneJumpGone(rest, 1);
    if k <= 1 {
      PartPasses(t, old_, |old_|, p, d - 1);
      assert old_[..|old_|] == old_;
      FrontJumpDecides(t, BOOT_CHAIN, rest, p, d);
    } else {
      EnableStages(t, rules, k, p, d);
      if |rules| + 3 <= k <= |rules| + 2 + INSERT_LIMIT {
        OneJumpGone(rest, k - |rules| - 2);
        NoJumpUpTo(Off(t), rest, p, d);
      }
    }
  }
}
