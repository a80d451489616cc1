/**
 The cleanup used at startup and from the command line: remove every trace of both
 Shroud chains from both tables, within a deadline.
 */
module Cleanup {
  import opened Cidr
  import opened PacketFilter
  import opened RuleBlocks
  import opened ChainTeardown
  import opened RuntimeKillSwitch
  import BootKillSwitch

  const BOOT := BootKillSwitch.BOOT_CHAIN
  const SHROUD_CHAINS: seq<string> := [CHAIN_NAME, BOOT]
  const NFT_TABLE := "shroud_killswitch"
  const JUMP_LIMIT: nat := 100
  /** Four delete loops, eight flushes and deletes, one nftables command. */
  const MAX_COMMANDS: nat := 4 * JUMP_LIMIT + 9

  /** The deadline counts in commands: the command that would overrun it is killed. */
  datatype Status = Succeeded | Refused | TimedOut

  datatype CleanupResult = Done | Overrun

  const SHROUD_JUMPS: seq<Rule> := [JumpTo(CHAIN_NAME), JumpTo(BOOT)]

  // ---------------------------------------------------------------------
  // What a cleanup may touch
  // ---------------------------------------------------------------------

  /**
   `after` is `before` with nothing but Shroud jumps, rules of Shroud chains and
   Shroud chains removed; every other rule is still there, in order.
   */
  predicate OnlyShroudRemoved(before: Table, after: Table) {
    && after.Keys <= before.Keys
    && (forall k <- before :: k !in SHROUD_CHAINS ==> k in after)
    && (forall k <- after :: k !in SHROUD_CHAINS && k != OUTPUT ==> after[k] == before[k])
    && (OUTPUT in before ==>
          WithoutAll(after[OUTPUT], SHROUD_JUMPS) == WithoutAll(before[OUTPUT], SHROUD_JUMPS))
  }

  predicate IsCleanupCommand(cmd: Command) {
    match cmd
    case DeleteRule(c, r) => c == OUTPUT && r in SHROUD_JUMPS
    case FlushChain(c) => c in SHROUD_CHAINS
    case DeleteChain(c) => c in SHROUD_CHAINS
    case _ => false
  }

  lemma CommandKeepsOthers(before: Table, t: Table, cmd: Command)
    requires IsCleanupCommand(cmd) && OnlyShroudRemoved(before, t)
    ensures OnlyShroudRemoved(before, Do(t, cmd))
  {
    if cmd.DeleteRule? && cmd.chain in t {
      RemoveFirstKeeps(t[OUTPUT], cmd.rule, SHROUD_JUMPS);
    }
    assert OUTPUT !in SHROUD_CHAINS;
  }

  // ---------------------------------------------------------------------
  // The commands, under a deadline
  // ---------------------------------------------------------------------

  /** Jumps to a chain that a delete loop can remove. */
  function JumpCount(t: Table, c: string): nat {
    if OUTPUT in t then Count(t[OUTPUT], JumpTo(c)) else 0
  }

  /** The commands one delete loop runs: one per jump and the one that fails, up to the limit. */
  function LoopCost(available: bool, t: Table, c: string): nat {
    if !available then 1
    else if JumpCount(t, c) < JUMP_LIMIT then JumpCount(t, c) + 1
    else JUMP_LIMIT
  }

  /**
   Run a command within the deadline. The command that overruns it is killed; `late`
   says whether that one took effect all the same.
   */
  method RunTimed(fw: Netfilter, cmd: Command, budget: nat, late: bool) returns (status: Status, left: nat)
    requires IsCleanupCommand(cmd)
    modifies fw
    ensures budget == 0 ==>
              && status.TimedOut? && left == 0
              && fw.chains == if late && fw.available then Do(old(fw.chains), cmd) else old(fw.chains)
    ensures budget > 0 ==>
              && left == budget - 1 && !status.TimedOut?
              && (status.Succeeded? <==> fw.available && Can(old(fw.chains), cmd))
              && fw.chains == if fw.available then Do(old(fw.chains), cmd) else old(fw.chains)
  {
    if budget == 0 {
      if late {
        var _ := fw.Execute(cmd);
      }
      return TimedOut, 0;
    }
    var ok := fw.Execute(cmd);
    return if ok then Succeeded else Refused, budget - 1;
  }

  /** A plain jump can be deleted exactly as long as fewer were deleted than there were. */
  lemma CanDeleteIff(t: Table, c: string, i: nat)
    requires i <= JumpCount(t, c)
    ensures Can(Trimmed(t, OUTPUT, JumpTo(c), i), DeleteRule(OUTPUT, JumpTo(c))) <==> i < JumpCount(t, c)
  {
    if OUTPUT in t {
      RemoveUpToFacts(t[OUTPUT], JumpTo(c), i);
      RemoveFirstFacts(RemoveUpTo(t[OUTPUT], JumpTo(c), i), JumpTo(c));
    }
  }

  /** Phase 1 for one chain in one table. */
  method RemoveJumps(fw: Netfilter, chain: string, budget: nat, late: bool, ghost before: Table)
    returns (r: CleanupResult, left: nat)
    requires chain in SHROUD_CHAINS && OnlyShroudRemoved(before, fw.chains)
    modifies fw
    ensures OnlyShroudRemoved(before, fw.chains) && fw.chains.Keys == old(fw.chains).Keys
    ensures r.Done? <==> budget >= LoopCost(fw.available, old(fw.chains), chain)
    ensures r.Done? ==>
              && left == budget - LoopCost(fw.available, old(fw.chains), chain)
              && fw.chains == if fw.available then Trimmed(old(fw.chains), OUTPUT, JumpTo(chain), JUMP_LIMIT) else old(fw.chains)
  {
    left := budget;
    ghost var start := fw.chains;
    var i := 0;
    while i < JUMP_LIMIT
      invariant 0 <= i <= JUMP_LIMIT && i <= budget && left == budget - i
      invariant OnlyShroudRemoved(before, fw.chains)
      invariant i <= JumpCount(start, chain) && (i > 0 ==> fw.available)
      invariant fw.chains == if fw.available then Trimmed(start, OUTPUT, JumpTo(chain), i) else start
    {
      var status;
      CommandKeepsOthers(before, fw.chains, DeleteRule(OUTPUT, JumpTo(chain)));
      TrimStep(start, OUTPUT, JumpTo(chain), i);
      CanDeleteIff(start, chain, i);
      status, left := RunTimed(fw, DeleteRule(OUTPUT, JumpTo(chain)), left, late);
      if status.TimedOut? {
        return Overrun, left;
      }
      if status.Refused? {
        if fw.available {
          TrimDone(start, OUTPUT, JumpTo(chain), i, JUMP_LIMIT);
        }
        return Done, left;
      }
      i := i + 1;
    }
    return Done, left;
  }

  /** Flush or delete one chain in both tables; a refusal is only logged. */
  method RunOnBoth(v4: Netfilter, v6: Netfilter, cmd: Command, budget: nat, late: bool, ghost b4: Table, ghost b6: Table)
    returns (r: CleanupResult, left: nat)
    requires v4 != v6 && IsCleanupCommand(cmd)
    requires OnlyShroudRemoved(b4, v4.chains) && OnlyShroudRemoved(b6, v6.chains)
    modifies v4, v6
    ensures OnlyShroudRemoved(b4, v4.chains) && OnlyShroudRemoved(b6, v6.chains)
    ensures v4.chains == if v4.available && Reach(budget, late) >= 1 then Do(old(v4.chains), cmd) else old(v4.chains)
    ensures v6.chains == if v6.available && Reach(budget, late) >= 2 then Do(old(v6.chains), cmd) else old(v6.chains)
    ensures (r.Done? <==> budget >= 2) && (r.Done? ==> left == budget - 2)
  {
    var status;
    CommandKeepsOthers(b4, v4.chains, cmd);
    CommandKeepsOthers(b6, v6.chains, cmd);
    status, left := RunTimed(v4, cmd, budget, late);
    if status.TimedOut? {
      return Overrun, left;
    }
    status, left := RunTimed(v6, cmd, left, late);
    if status.TimedOut? {
      return Overrun, left;
    }
    return Done, left;
  }

  /** The number of commands that take effect before the deadline ends it all. */
  function Reach(budget: nat, late: bool): nat {
    budget + if late then 1 else 0
  }

  /** Phase 1 over a list of chains. */
  function TrimmedAll(t: Table, chains: seq<string>): Table {
    if chains == [] then t
    else Trimmed(TrimmedAll(t, chains[..|chains| - 1]), OUTPUT, JumpTo(chains[|chains| - 1]), JUMP_LIMIT)
  }

  function FlushedAndDeleted(t: Table, c: string): Table {
    Do(Do(t, FlushChain(c)), DeleteChain(c))
  }

  /** Phases 2 and 3 over a list of chains: flush and delete one after the other. */
  function TakenDown(t: Table, chains: seq<string>): Table {
    if chains == [] then t else FlushedAndDeleted(TakenDown(t, chains[..|chains| - 1]), chains[|chains| - 1])
  }

  /** The table after a complete cleanup. */
  function FullyCleaned(t: Table): Table {
    TakenDown(TrimmedAll(t, SHROUD_CHAINS), SHROUD_CHAINS)
  }

  function CleanedIf(available: bool, t: Table): Table {
    if available then FullyCleaned(t) else t
  }

  /** The commands of phase 1 for one chain, in both tables. */
  function ChainCost(a4: bool, t4: Table, a6: bool, t6: Table, c: string): nat {
    LoopCost(a4, t4, c) + LoopCost(a6, t6, c)
  }

  /** The commands of phase 1. */
  function PhaseOneCost(a4: bool, t4: Table, a6: bool, t6: Table): nat {
    ChainCost(a4, t4, a6, t6, CHAIN_NAME) + ChainCost(a4, t4, a6, t6, BOOT)
  }

  /** Phase 1 for one chain in both tables. */
  method RemoveJumpsOne(v4: Netfilter, v6: Netfilter, c: string, budget: nat, late: bool, ghost b4: Table, ghost b6: Table)
    returns (r: CleanupResult, left: nat)
    requires v4 != v6 && c in SHROUD_CHAINS && OnlyShroudRemoved(b4, v4.chains) && OnlyShroudRemoved(b6, v6.chains)
    modifies v4, v6
    ensures OnlyShroudRemoved(b4, v4.chains) && OnlyShroudRemoved(b6, v6.chains)
    ensures v4.chains.Keys == old(v4.chains).Keys && v6.chains.Keys == old(v6.chains).Keys
    ensures r.Done? <==> budget >= ChainCost(v4.available, old(v4.chains), v6.available, old(v6.chains), c)
    ensures r.Done? ==>
              && left == budget - ChainCost(v4.available, old(v4.chains), v6.available, old(v6.chains), c)
              && v4.chains == JumpsTrimmed(v4.available, old(v4.chains), c)
              && v6.chains == JumpsTrimmed(v6.available, old(v6.chains), c)
  {
    r, left := RemoveJumps(v4, c, budget, late, b4);
    if r.Overrun? {
      return;
    }
    r, left := RemoveJumps(v6, c, left, late, b6);
  }

  function JumpsTrimmed(available: bool, t: Table, c: string): Table {
    if available then Trimmed(t, OUTPUT, JumpTo(c), JUMP_LIMIT) else t
  }

  /** Trimming the jumps to one chain does not change what the other loop costs. */
  lemma SameCost(available: bool, t: Table)
    ensures LoopCost(available, JumpsTrimmed(available, t, CHAIN_NAME), BOOT) == LoopCost(available, t, BOOT)
  {
    if OUTPUT in t {
      CountAfterOther(t[OUTPUT], JumpTo(CHAIN_NAME), JumpTo(BOOT), JUMP_LIMIT);
    }
  }

  lemma TrimmedAllIs(t: Table)
    ensures TrimmedAll(t, SHROUD_CHAINS) == JumpsTrimmed(true, JumpsTrimmed(true, t, CHAIN_NAME), BOOT)
  {
    var all := SHROUD_CHAINS;
    assert all[..1] == [CHAIN_NAME] && all[..1][..0] == [];
    assert TrimmedAll(t, all[..1]) == Trimmed(t, OUTPUT, JumpTo(CHAIN_NAME), JUMP_LIMIT);
  }

  /** Phase 1 in both tables. */
  method RemoveAllJumps(v4: Netfilter, v6: Netfilter, budget: nat, late: bool) returns (r: CleanupResult, left: nat)
    requires v4 != v6
    modifies v4, v6
    ensures OnlyShroudRemoved(old(v4.chains), v4.chains) && OnlyShroudRemoved(old(v6.chains), v6.chains)
    ensures v4.chains.Keys == old(v4.chains).Keys && v6.chains.Keys == old(v6.chains).Keys
    ensures r.Done? <==> budget >= PhaseOneCost(v4.available, old(v4.chains), v6.available, old(v6.chains))
    ensures r.Done? ==>
              && left == budget - PhaseOneCost(v4.available, old(v4.chains), v6.available, old(v6.chains))
              && v4.chains == (if v4.available then TrimmedAll(old(v4.chains), SHROUD_CHAINS) else old(v4.chains))
              && v6.chains == (if v6.available then TrimmedAll(old(v6.chains), SHROUD_CHAINS) else old(v6.chains))
  {
    ghost var b4, b6 := v4.chains, v6.chains;
    SameCost(v4.available, b4);
    SameCost(v6.available, b6);
    TrimmedAllIs(b4);
    TrimmedAllIs(b6);
    r, left := RemoveJumpsOne(v4, v6, CHAIN_NAME, budget, late, b4, b6);
    if r.Overrun? {
      return;
    }
    r, left := RemoveJumpsOne(v4, v6, BOOT, left, late, b4, b6);
  }

  /** One table before and after phases 2 and 3 for one chain; the delete is command number `at`. */
  predicate TakenOne(available: bool, t: Table, t': Table, c: string, reach: nat, at: nat) {
    && (available && reach >= at ==> t' == FlushedAndDeleted(t, c))
    && (!available ==> t' == t)
    && (reach < at ==> (c in t' <==> c in t))
    && (Other(c) in t' <==> Other(c) in t)
  }

  function Other(c: string): string {
    if c == BOOT then CHAIN_NAME else BOOT
  }

  /** Phases 2 and 3 for one chain in both tables. */
  method TakeDownOne(v4: Netfilter, v6: Netfilter, c: string, budget: nat, late: bool, ghost b4: Table, ghost b6: Table)
    returns (r: CleanupResult, left: nat)
    requires v4 != v6 && c in SHROUD_CHAINS && OnlyShroudRemoved(b4, v4.chains) && OnlyShroudRemoved(b6, v6.chains)
    modifies v4, v6
    ensures OnlyShroudRemoved(b4, v4.chains) && OnlyShroudRemoved(b6, v6.chains)
    ensures TakenOne(v4.available, old(v4.chains), v4.chains, c, Reach(budget, late), 3)
    ensures TakenOne(v6.available, old(v6.chains), v6.chains, c, Reach(budget, late), 4)
    ensures (r.Done? <==> budget >= 4) && (r.Done? ==> left == budget - 4)
  {
    r, left := RunOnBoth(v4, v6, FlushChain(c), budget, late, b4, b6);
    if r.Overrun? {
      return;
    }
    r, left := RunOnBoth(v4, v6, DeleteChain(c), left, late, b4, b6);
  }

  /** The chain is left when the commands up to number `at` of phases 2 and 3 are not all reached. */
  predicate Remains(available: bool, t: Table, c: string, reach: nat, at: nat) {
    c in t && (available && reach >= at ==> c in TakenDown(t, SHROUD_CHAINS))
  }

  lemma TakenDownIs(t: Table)
    ensures TakenDown(t, SHROUD_CHAINS) == FlushedAndDeleted(FlushedAndDeleted(t, CHAIN_NAME), BOOT)
    ensures CHAIN_NAME in TakenDown(t, SHROUD_CHAINS) <==> CHAIN_NAME in FlushedAndDeleted(t, CHAIN_NAME)
    ensures BOOT in FlushedAndDeleted(t, CHAIN_NAME) <==> BOOT in t
  {
    var all := SHROUD_CHAINS;
    assert all[..1] == [CHAIN_NAME] && all[..1][..0] == [];
    assert TakenDown(t, all[..1]) == FlushedAndDeleted(t, CHAIN_NAME);
  }

  lemma TakenBoth(available: bool, t: Table, t1: Table, t2: Table, reach: nat, at: nat)
    requires 4 <= reach && at <= 4
    requires TakenOne(available, t, t1, CHAIN_NAME, reach, at) && TakenOne(available, t1, t2, BOOT, reach - 4, at)
    ensures CHAIN_NAME in t2 <==> Remains(available, t, CHAIN_NAME, reach, at)
    ensures BOOT in t2 <==> Remains(available, t, BOOT, reach, at + 4)
    ensures available && reach >= at + 4 ==> t2 == TakenDown(t, SHROUD_CHAINS)
  {
    TakenDownIs(t);
  }

  /** Phases 2 and 3 in both tables: the four deletes are commands number 3, 4, 7 and 8. */
  method TakeDownAll(v4: Netfilter, v6: Netfilter, budget: nat, late: bool, ghost b4: Table, ghost b6: Table)
    returns (r: CleanupResult, left: nat)
    requires v4 != v6 && OnlyShroudRemoved(b4, v4.chains) && OnlyShroudRemoved(b6, v6.chains)
    modifies v4, v6
    ensures OnlyShroudRemoved(b4, v4.chains) && OnlyShroudRemoved(b6, v6.chains)
    ensures CHAIN_NAME in v4.chains <==> Remains(v4.available, old(v4.chains), CHAIN_NAME, Reach(budget, late), 3)
    ensures CHAIN_NAME in v6.chains <==> Remains(v6.available, old(v6.chains), CHAIN_NAME, Reach(budget, late), 4)
    ensures BOOT in v4.chains <==> Remains(v4.available, old(v4.chains), BOOT, Reach(budget, late), 7)
    ensures BOOT in v6.chains <==> Remains(v6.available, old(v6.chains), BOOT, Reach(budget, late), 8)
    ensures r.Done? ==>
              && v4.chains == (if v4.available then TakenDown(old(v4.chains), SHROUD_CHAINS) else old(v4.chains))
              && v6.chains == (if v6.available then TakenDown(old(v6.chains), SHROUD_CHAINS) else old(v6.chains))
    ensures (r.Done? <==> budget >= 8) && (r.Done? ==> left == budget - 8)
  {
    ghost var t4, t6 := v4.chains, v6.chains;
    r, left := TakeDownOne(v4, v6, CHAIN_NAME, budget, late, b4, b6);
    if r.Overrun? {
      TakenDownIs(t4);
      TakenDownIs(t6);
      return;
    }
    ghost var u4, u6 := v4.chains, v6.chains;
    r, left := TakeDownOne(v4, v6, BOOT, left, late, b4, b6);
    TakenBoth(v4.available, t4, u4, v4.chains, Reach(budget, late), 3);
    TakenBoth(v6.available, t6, u6, v6.chains, Reach(budget, late), 4);
  }

  /** A rule of the block that the runtime switch places directly in the IPv6 OUTPUT chain is there. */
  predicate BlockIn(t: Table, block: seq<Rule>) {
    OUTPUT in t && exists r <- block :: r in t[OUTPUT]
  }

  /**
   Everything a cleanup starts from. `block` is what the runtime switch last placed in
   the IPv6 OUTPUT chain; `nftDeletes` says whether the nft command would succeed.
   */
  datatype Start = Start(
    a4: bool, t4: Table, a6: bool, t6: Table, block: seq<Rule>, nft: set<string>, nftDeletes: bool, budget: nat, late: bool)
  {
    function Cost(): nat { PhaseOneCost(a4, t4, a6, t6) }
    function Reached(): nat { Reach(budget, late) }
    predicate Left4(c: string, at: nat) { c in t4 && (a4 && Reached() >= Cost() + at ==> c in FullyCleaned(t4)) }
    predicate Left6(c: string, at: nat) { c in t6 && (a6 && Reached() >= Cost() + at ==> c in FullyCleaned(t6)) }
    predicate NftLeft() { NFT_TABLE in nft && (Reached() >= Cost() + 9 ==> !nftDeletes) }
  }

  /**
   The three phases over both chains and both tables, then the nftables table. However
   early the deadline strikes, nothing but Shroud's own rules is gone, and for the chains
   and the nftables table it is known exactly whether they are clear.
   */
  method RunCleanupCommand(v4: Netfilter, v6: Netfilter, nftTables: set<string>, nftDeletes: bool, budget: nat, late: bool,
                           ghost block: seq<Rule>)
    returns (r: CleanupResult, nftLeft: set<string>)
    requires v4 != v6
    modifies v4, v6
    ensures OnlyShroudRemoved(old(v4.chains), v4.chains) && OnlyShroudRemoved(old(v6.chains), v6.chains)
    ensures var s := Start(v4.available, old(v4.chains), v6.available, old(v6.chains), block,
                           nftTables, nftDeletes, budget, late);
            && (CHAIN_NAME in v4.chains <==> s.Left4(CHAIN_NAME, 3)) && (CHAIN_NAME in v6.chains <==> s.Left6(CHAIN_NAME, 4))
            && (BOOT in v4.chains <==> s.Left4(BOOT, 7)) && (BOOT in v6.chains <==> s.Left6(BOOT, 8))
            && nftLeft == (if s.NftLeft() then nftTables else nftTables - {NFT_TABLE})
            && (r.Done? <==> budget >= s.Cost() + 9)
    ensures r.Done? ==>
              && v4.chains == CleanedIf(v4.available, old(v4.chains))
              && v6.chains == CleanedIf(v6.available, old(v6.chains))
  {
    nftLeft := nftTables;
    var left;
    ghost var b4, b6 := v4.chains, v6.chains;
    KeysAfterPhaseOne(b4);
    KeysAfterPhaseOne(b6);
    r, left := RemoveAllJumps(v4, v6, budget, late);
    if r.Overrun? {
      return;
    }
    r, left := TakeDownAll(v4, v6, left, late, b4, b6);
    if r.Overrun? {
      return;
    }
    if nftDeletes && (left > 0 || late) {
      nftLeft := nftTables - {NFT_TABLE};
    }
    return if left > 0 then Done else Overrun, nftLeft;
  }

  lemma KeysAfterPhaseOne(t: Table)
    ensures TrimmedAll(t, SHROUD_CHAINS).Keys == t.Keys
  {
    TrimmedAllIs(t);
  }

  /** Listing a chain succeeds exactly when it exists. */
  predicate Lists(fw: Netfilter, chain: string)
    reads fw
  {
    fw.available && chain in fw.chains
  }

  /** Clean up and check. The check looks at three of the six places where something can be left. */
  method CleanupAll(v4: Netfilter, v6: Netfilter, nftTables: set<string>, nftDeletes: bool, budget: nat, late: bool,
                    ghost block: seq<Rule>)
    returns (ok: bool, nftLeft: set<string>)
    requires v4 != v6 && JumpFree(block)
    modifies v4, v6
    ensures OnlyShroudRemoved(old(v4.chains), v4.chains) && OnlyShroudRemoved(old(v6.chains), v6.chains)
    ensures var s := Start(v4.available, old(v4.chains), v6.available, old(v6.chains), block,
                           nftTables, nftDeletes, budget, late);
            && ok == ReportsSuccess(s)
            && (AllClear(s) <==>
                && CHAIN_NAME !in v4.chains && CHAIN_NAME !in v6.chains && BOOT !in v4.chains && BOOT !in v6.chains
                && NFT_TABLE !in nftLeft && !BlockIn(v6.chains, block))
    ensures budget >= MAX_COMMANDS ==>
              v4.chains == CleanedIf(v4.available, old(v4.chains)) && v6.chains == CleanedIf(v6.available, old(v6.chains))
  {
    var r;
    r, nftLeft := RunCleanupCommand(v4, v6, nftTables, nftDeletes, budget, late, block);
    BlockStays(old(v6.chains), v6.chains, block);
    ok := !Lists(v4, CHAIN_NAME) && !Lists(v6, CHAIN_NAME) && !Lists(v4, BOOT);
  }

  /** What the final check finds, from the start. */
  predicate ReportsSuccess(s: Start) {
    !(s.a4 && s.Left4(CHAIN_NAME, 3)) && !(s.a6 && s.Left6(CHAIN_NAME, 4)) && !(s.a4 && s.Left4(BOOT, 7))
  }

  /** Nothing of Shroud is left in any of the six places. */
  predicate AllClear(s: Start) {
    && !s.Left4(CHAIN_NAME, 3) && !s.Left6(CHAIN_NAME, 4) && !s.Left4(BOOT, 7) && !s.Left6(BOOT, 8)
    && !s.NftLeft() && !BlockIn(s.t6, s.block)
  }

  /** However far a cleanup gets, it leaves the rules placed directly in OUTPUT. */
  lemma BlockStays(before: Table, after: Table, block: seq<Rule>)
    requires OnlyShroudRemoved(before, after) && JumpFree(block)
    ensures BlockIn(after, block) <==> BlockIn(before, block)
  {
    assert OUTPUT !in SHROUD_CHAINS;
    if OUTPUT in before {
      forall r | r in block ensures r in after[OUTPUT] <==> r in before[OUTPUT] {
        WithoutAllMember(before[OUTPUT], SHROUD_JUMPS, r);
        WithoutAllMember(after[OUTPUT], SHROUD_JUMPS, r);
      }
    }
  }

  // ---------------------------------------------------------------------
  // What a complete cleanup leaves
  // ---------------------------------------------------------------------

  /** The chain can be removed: the only references to it are removable jumps. */
  predicate Removable(t: Table, c: string)
    requires OUTPUT in t
  {
    Count(t[OUTPUT], JumpTo(c)) <= 100 && !OtherReference(t, c)
  }

  /** Deleting the jumps of both chains first, then taking one down, is one teardown each. */
  lemma PhasesAreTeardowns(t: Table)
    requires OUTPUT in t
    ensures var t1 := TrimmedAll(t, SHROUD_CHAINS);
            && t1 == Trimmed(Trimmed(t, OUTPUT, JumpTo(CHAIN_NAME), JUMP_LIMIT), OUTPUT, JumpTo(BOOT), JUMP_LIMIT)
            && FullyCleaned(t) == FlushedAndDeleted(FlushedAndDeleted(t1, CHAIN_NAME), BOOT)
  {
    var all := SHROUD_CHAINS;
    assert all[..1] == [CHAIN_NAME] && all[..1][..0] == [];
    assert TrimmedAll(t, all[..1]) == Trimmed(t, OUTPUT, JumpTo(CHAIN_NAME), JUMP_LIMIT);
    var t1 := TrimmedAll(t, all);
    assert TakenDown(t1, all[..1]) == FlushedAndDeleted(t1, CHAIN_NAME);
  }

  /** Flushing and deleting a chain whose jumps are gone is a teardown with nothing left to delete. */
  lemma FlushAndDelete(t: Table, c: string)
    requires OUTPUT in t && c !in BUILTIN
    ensures FlushedAndDeleted(t, c) == TornDown(t, c, 0)
  {
    TeardownSteps(t, c, 0);
    assert Trimmed(t, OUTPUT, JumpTo(c), 0) == t;
  }

  /** The main chain survives a complete cleanup exactly when it was there and not removable. */
  lemma MainChainSurvivesIff(t: Table)
    requires OUTPUT in t
    ensures CHAIN_NAME in FullyCleaned(t) <==> CHAIN_NAME in t && !Removable(t, CHAIN_NAME)
  {
    var once := Trimmed(t, OUTPUT, JumpTo(CHAIN_NAME), JUMP_LIMIT);
    var t1 := TrimmedAll(t, SHROUD_CHAINS);
    PhasesAreTeardowns(t);
    RemoveUpToFacts(t[OUTPUT], JumpTo(CHAIN_NAME), JUMP_LIMIT);
    CountAfterOther(once[OUTPUT], JumpTo(BOOT), JumpTo(CHAIN_NAME), JUMP_LIMIT);
    TrimKeepsOtherReferences(t, CHAIN_NAME, JUMP_LIMIT, CHAIN_NAME);
    TrimKeepsOtherReferences(once, BOOT, JUMP_LIMIT, CHAIN_NAME);
    FlushAndDelete(t1, CHAIN_NAME);
    SurvivesIff(t1, CHAIN_NAME, 0);
  }

  /** Flushing and deleting one chain removes its references to another, and no others. */
  lemma ReferencesWithout(t: Table, t2: Table, c: string, other: string)
    requires c != other && t2 - {c} == t - {c} && (c in t2 ==> t2[c] == [])
    ensures OtherReference(t2, other) <==> OtherReference(t - {c}, other)
  {
    forall k | k in t - {c} ensures k in t2 && t2[k] == (t - {c})[k] {
      assert k in t2 - {c} && (t2 - {c})[k] == (t - {c})[k];
    }
    forall k | k in t2 && k != c ensures k in t - {c} {
      assert k in t2 - {c};
    }
  }

  /** Phase 1 leaves a plain jump to the boot chain exactly when there were too many. */
  lemma BootJumpsLeft(t: Table)
    requires OUTPUT in t
    ensures OUTPUT in TrimmedAll(t, SHROUD_CHAINS)
    ensures Count(TrimmedAll(t, SHROUD_CHAINS)[OUTPUT], JumpTo(BOOT)) > 0 <==> Count(t[OUTPUT], JumpTo(BOOT)) > JUMP_LIMIT
  {
    var once := RemoveUpTo(t[OUTPUT], JumpTo(CHAIN_NAME), JUMP_LIMIT);
    PhasesAreTeardowns(t);
    CountAfterOther(t[OUTPUT], JumpTo(CHAIN_NAME), JumpTo(BOOT), JUMP_LIMIT);
    RemoveUpToFacts(once, JumpTo(BOOT), JUMP_LIMIT);
  }

  /** Taking the main chain down changes nothing else. */
  lemma MainTakenDown(t: Table)
    requires OUTPUT in t
    ensures var t2 := FlushedAndDeleted(t, CHAIN_NAME);
            t2 - {CHAIN_NAME} == t - {CHAIN_NAME} && (CHAIN_NAME in t2 ==> t2[CHAIN_NAME] == [])
  {
    FlushAndDelete(t, CHAIN_NAME);
    assert t[OUTPUT := RemoveUpTo(t[OUTPUT], JumpTo(CHAIN_NAME), 0)] == t;
  }

  /**
   The boot chain is taken down second, when the main chain's rules are already gone,
   so references from there do not keep it.
   */
  lemma BootChainSurvivesIff(t: Table)
    requires OUTPUT in t
    ensures BOOT in FullyCleaned(t) <==>
            BOOT in t && (Count(t[OUTPUT], JumpTo(BOOT)) > JUMP_LIMIT || OtherReference(t - {CHAIN_NAME}, BOOT))
  {
    var t1 := TrimmedAll(t, SHROUD_CHAINS);
    var t2 := FlushedAndDeleted(t1, CHAIN_NAME);
    PhasesAreTeardowns(t);
    BootJumpsLeft(t);
    MainTakenDown(t1);
    assert (t2 - {CHAIN_NAME}).Keys == (t1 - {CHAIN_NAME}).Keys;
    assert OUTPUT in t2 - {CHAIN_NAME} && t2[OUTPUT] == t1[OUTPUT] && (BOOT in t2 <==> BOOT in t1);
    ReferencesWithout(t1, t2, CHAIN_NAME, BOOT);
    TrimmedMinus(t);
    FlushAndDelete(t2, BOOT);
    SurvivesIff(t2, BOOT, 0);
  }

  lemma TrimmedMinus(t: Table)
    requires OUTPUT in t
    ensures OtherReference(TrimmedAll(t, SHROUD_CHAINS) - {CHAIN_NAME}, BOOT) <==> OtherReference(t - {CHAIN_NAME}, BOOT)
  {
    var m := t - {CHAIN_NAME};
    var once := Trimmed(m, OUTPUT, JumpTo(CHAIN_NAME), JUMP_LIMIT);
    PhasesAreTeardowns(t);
    TrimKeepsOtherReferences(m, CHAIN_NAME, JUMP_LIMIT, BOOT);
    TrimKeepsOtherReferences(once, BOOT, JUMP_LIMIT, BOOT);
    TrimThenDrop(t, JumpTo(CHAIN_NAME));
    TrimThenDrop(Trimmed(t, OUTPUT, JumpTo(CHAIN_NAME), JUMP_LIMIT), JumpTo(BOOT));
  }

  /** Trimming OUTPUT and dropping the main chain commute. */
  lemma TrimThenDrop(t: Table, r: Rule)
    requires OUTPUT in t
    ensures Trimmed(t, OUTPUT, r, JUMP_LIMIT) - {CHAIN_NAME} == Trimmed(t - {CHAIN_NAME}, OUTPUT, r, JUMP_LIMIT)
    ensures OUTPUT in Trimmed(t, OUTPUT, r, JUMP_LIMIT)
  {
  }

  /** Every rule of `t'` is a rule of `t`, in the same chain. */
  predicate SubTable(t': Table, t: Table) {
    t'.Keys <= t.Keys && forall k <- t' :: forall r <- t'[k] :: r in t[k]
  }

  lemma SubTableReferences(t': Table, t: Table, c: string)
    requires SubTable(t', t) && !OtherReference(t, c)
    ensures !OtherReference(t', c)
  {
    forall k | k in t' && k != c ensures !RefersOtherwise(k, t'[k], c) {
      assert !RefersOtherwise(k, t[k], c);
    }
  }

  /** Both kinds of jump, removed one after the other. */
  lemma BothJumps(o: seq<Rule>)
    ensures WithoutAll(o, SHROUD_JUMPS) == Without(Without(o, JumpTo(CHAIN_NAME)), JumpTo(BOOT))
  {
    var rest := Without(o, JumpTo(CHAIN_NAME));
    WithoutThenAll(o, SHROUD_JUMPS);
    assert SHROUD_JUMPS[1..] == [JumpTo(BOOT)] && SHROUD_JUMPS[1..][1..] == [];
    WithoutThenAll(rest, SHROUD_JUMPS[1..]);
    WithoutAllSame(Without(rest, JumpTo(BOOT)), []);
  }

  /** With few enough plain jumps, phase 1 leaves OUTPUT without any Shroud jump. */
  lemma PhaseOneClean(t: Table)
    requires OUTPUT in t && Removable(t, CHAIN_NAME) && Removable(t, BOOT)
    ensures TrimmedAll(t, SHROUD_CHAINS) == t[OUTPUT := WithoutAll(t[OUTPUT], SHROUD_JUMPS)]
  {
    var o := t[OUTPUT];
    PhasesAreTeardowns(t);
    RemoveUpToFacts(o, JumpTo(CHAIN_NAME), JUMP_LIMIT);
    CountWithout(o, JumpTo(CHAIN_NAME), JumpTo(BOOT));
    RemoveUpToFacts(Without(o, JumpTo(CHAIN_NAME)), JumpTo(BOOT), JUMP_LIMIT);
    BothJumps(o);
  }

  /**
   A complete cleanup with nothing in its way: both chains and every jump to them are
   gone, and every other rule and chain is as it was.
   */
  lemma CleanupComplete(t: Table)
    requires OUTPUT in t && Removable(t, CHAIN_NAME) && Removable(t, BOOT)
    ensures FullyCleaned(t) == (t - {CHAIN_NAME, BOOT})[OUTPUT := WithoutAll(t[OUTPUT], SHROUD_JUMPS)]
  {
    PhasesAreTeardowns(t);
    PhaseOneClean(t);
    JumpsGone(t);
    var t1 := t[OUTPUT := WithoutAll(t[OUTPUT], SHROUD_JUMPS)];
    SubTableReferences(t1, t, CHAIN_NAME);
    SubTableReferences(t1, t, BOOT);
    BothGo(t1);
  }

  lemma JumpsGone(t: Table)
    requires OUTPUT in t
    ensures var t1 := t[OUTPUT := WithoutAll(t[OUTPUT], SHROUD_JUMPS)];
            SubTable(t1, t) && JumpTo(CHAIN_NAME) !in t1[OUTPUT] && JumpTo(BOOT) !in t1[OUTPUT]
  {
    forall r ensures r in WithoutAll(t[OUTPUT], SHROUD_JUMPS) <==> r in t[OUTPUT] && r !in SHROUD_JUMPS {
      WithoutAllMember(t[OUTPUT], SHROUD_JUMPS, r);
    }
  }

  lemma BothGo(t: Table)
    requires OUTPUT in t && JumpTo(CHAIN_NAME) !in t[OUTPUT] && JumpTo(BOOT) !in t[OUTPUT]
    requires !OtherReference(t, CHAIN_NAME) && !OtherReference(t, BOOT)
    ensures FlushedAndDeleted(FlushedAndDeleted(t, CHAIN_NAME), BOOT) == t - {CHAIN_NAME, BOOT}
  {
    UnreferencedGoes(t, CHAIN_NAME);
    SubTableReferences(t - {CHAIN_NAME}, t, BOOT);
    UnreferencedGoes(t - {CHAIN_NAME}, BOOT);
  }

  /** A chain nothing refers to is simply gone. */
  lemma UnreferencedGoes(t: Table, c: string)
    requires OUTPUT in t && c !in BUILTIN && JumpTo(c) !in t[OUTPUT] && !OtherReference(t, c)
    ensures FlushedAndDeleted(t, c) == t - {c}
  {
    RemoveFirstFacts(t[OUTPUT], JumpTo(c));
    NoneLeft(t[OUTPUT], JumpTo(c));
    FlushAndDelete(t, c);
    TornDownClean(t, c, 0);
  }

  /** A second cleanup changes nothing. */
  lemma CleanupIdempotent(t: Table)
    requires OUTPUT in t && Removable(t, CHAIN_NAME) && Removable(t, BOOT)
    ensures FullyCleaned(FullyCleaned(t)) == FullyCleaned(t)
  {
    var t' := FullyCleaned(t);
    CleanupComplete(t);
    JumpsGone(t);
    RemoveFirstFacts(t'[OUTPUT], JumpTo(CHAIN_NAME));
    RemoveFirstFacts(t'[OUTPUT], JumpTo(BOOT));
    SubTableReferences(t', t, CHAIN_NAME);
    SubTableReferences(t', t, BOOT);
    CleanupComplete(t');
    KeptStays(t[OUTPUT], SHROUD_JUMPS);
  }

  /** The boot chain stays when it is taken down after the main chain. */
  predicate BootHeld(t: Table)
    requires OUTPUT in t
  {
    Count(t[OUTPUT], JumpTo(BOOT)) > 100 || OtherReference(t - {CHAIN_NAME}, BOOT)
  }

  /** Something is left that the final check sees. */
  predicate SeenLeft(s: Start)
    requires OUTPUT in s.t4 && OUTPUT in s.t6
  {
    || (s.a4 && CHAIN_NAME in s.t4 && (s.Reached() < s.Cost() + 3 || !Removable(s.t4, CHAIN_NAME)))
    || (s.a6 && CHAIN_NAME in s.t6 && (s.Reached() < s.Cost() + 4 || !Removable(s.t6, CHAIN_NAME)))
    || (s.a4 && BOOT in s.t4 && (s.Reached() < s.Cost() + 7 || BootHeld(s.t4)))
  }

  /** Something is left that it does not look at, or cannot look at without the binary. */
  predicate UnseenLeft(s: Start)
    requires OUTPUT in s.t4 && OUTPUT in s.t6
  {
    || (s.a6 && BOOT in s.t6 && (s.Reached() < s.Cost() + 8 || BootHeld(s.t6)))
    || (NFT_TABLE in s.nft && (s.Reached() < s.Cost() + 9 || !s.nftDeletes))
    || BlockIn(s.t6, s.block)
    || (!s.a4 && (CHAIN_NAME in s.t4 || BOOT in s.t4))
    || (!s.a6 && (CHAIN_NAME in s.t6 || BOOT in s.t6))
  }

  /**
   A reported success is true of all six places exactly when something the check sees
   is left, so that none is reported, or nothing it does not see is. Both are conditions
   on the tables, the binaries and the deadline before the cleanup.
   */
  lemma SuccessTrueIff(s: Start)
    requires OUTPUT in s.t4 && OUTPUT in s.t6
    ensures ReportsSuccess(s) <==> !SeenLeft(s)
    ensures AllClear(s) <==> !SeenLeft(s) && !UnseenLeft(s)
    ensures (ReportsSuccess(s) ==> AllClear(s)) <==> SeenLeft(s) || !UnseenLeft(s)
  {
    MainChainSurvivesIff(s.t4);
    MainChainSurvivesIff(s.t6);
    BootChainSurvivesIff(s.t4);
    BootChainSurvivesIff(s.t6);
  }

  /** An IPv6 table in which a user rule still leads to the boot chain. */
  const STUCK: Table := map[OUTPUT := [], "FORWARD" := [JumpTo(BOOT)], BOOT := []]
  const EMPTY: Table := map[OUTPUT := []]

  /** However long it may take, the cleanup of that table reports success and leaves the chain. */
  lemma SuccessMissesV6Boot(budget: nat, late: bool)
    ensures var s := Start(true, EMPTY, true, STUCK, [], {}, true, budget, late); ReportsSuccess(s) && !AllClear(s)
  {
    var rest := STUCK - {CHAIN_NAME};
    assert JumpTo(BOOT) in rest["FORWARD"] && RefersOtherwise("FORWARD", rest["FORWARD"], BOOT);
    SuccessTrueIff(Start(true, EMPTY, true, STUCK, [], {}, true, budget, late));
  }

  /** A deadline that strikes before the nft command leaves the nftables switch on, and reports success. */
  lemma SuccessMissesNft(budget: nat)
    ensures var s := Start(true, EMPTY, true, EMPTY, [], {NFT_TABLE}, true, budget, false);
            ReportsSuccess(s) && (AllClear(s) <==> budget >= 13)
  {
    var s := Start(true, EMPTY, true, EMPTY, [], {NFT_TABLE}, true, budget, false);
    assert s.Cost() == 4;
    SuccessTrueIff(s);
  }

  lemma {:induction false} RemoveFirstBehind(block: seq<Rule>, rest: seq<Rule>, r: Rule)
    requires r !in block
    ensures RemoveFirst(block + rest, r) == block + RemoveFirst(rest, r)
  {
    if block == [] {
      assert block + rest == rest && block + RemoveFirst(rest, r) == RemoveFirst(rest, r);
    } else {
      assert (block + rest)[0] == block[0] && (block + rest)[1..] == block[1..] + rest;
      RemoveFirstBehind(block[1..], rest, r);
      assert [block[0]] + (block[1..] + RemoveFirst(rest, r)) == block + RemoveFirst(rest, r);
    }
  }

  lemma {:induction false} RemoveUpToBehind(block: seq<Rule>, rest: seq<Rule>, r: Rule, n: nat)
    requires r !in block
    ensures RemoveUpTo(block + rest, r, n) == block + RemoveUpTo(rest, r, n)
  {
    if n > 0 {
      RemoveUpToBehind(block, rest, r, n - 1);
      RemoveFirstBehind(block, RemoveUpTo(rest, r, n - 1), r);
    }
  }

  /** Phases 2 and 3 do not touch OUTPUT. */
  lemma OutputAfterPhaseOne(t: Table)
    requires OUTPUT in t
    ensures OUTPUT in FullyCleaned(t) && OUTPUT in TrimmedAll(t, SHROUD_CHAINS)
    ensures FullyCleaned(t)[OUTPUT] == TrimmedAll(t, SHROUD_CHAINS)[OUTPUT]
  {
    TrimmedAllIs(t);
    TakenDownIs(TrimmedAll(t, SHROUD_CHAINS));
  }

  /** A block without jumps that was in front of OUTPUT is still in front after a complete cleanup. */
  lemma BlockStaysInFront(t: Table, block: seq<Rule>, rest: seq<Rule>)
    requires OUTPUT in t && t[OUTPUT] == block + rest && JumpFree(block)
    ensures OUTPUT in FullyCleaned(t)
    ensures exists rest' :: FullyCleaned(t)[OUTPUT] == block + rest'
  {
    OutputAfterPhaseOne(t);
    TrimmedAllIs(t);
    RemoveUpToBehind(block, rest, JumpTo(CHAIN_NAME), JUMP_LIMIT);
    var once := RemoveUpTo(rest, JumpTo(CHAIN_NAME), JUMP_LIMIT);
    RemoveUpToBehind(block, once, JumpTo(BOOT), JUMP_LIMIT);
    assert FullyCleaned(t)[OUTPUT] == block + RemoveUpTo(once, JumpTo(BOOT), JUMP_LIMIT);
  }

  /**
   The IPv6 half of the runtime switch outlives every complete cleanup: with its block in
   front of OUTPUT, exactly the packets the switch allows leave, before and after.
   */
  lemma BlockOutlivesCleanup(t: Table, mode: Ipv6Mode, subnets: seq<Cidr>, rest: seq<Rule>, p: Packet, d: nat)
    requires OUTPUT in t && t[OUTPUT] == Ipv6Rules(mode, subnets) + rest && !mode.OffV6?
    ensures var t' := FullyCleaned(t);
            OUTPUT in t' && Walk(t', t'[OUTPUT], p, d) == if Ipv6Allows(mode, subnets, p) then Accepted else Dropped
  {
    Ipv6RulesJumpFree(mode, subnets);
    BlockStaysInFront(t, Ipv6Rules(mode, subnets), rest);
    var t' := FullyCleaned(t);
    var rest' :| t'[OUTPUT] == Ipv6Rules(mode, subnets) + rest';
    Ipv6Verdict(t', mode, subnets, rest', p, d);
  }

  /**
   A crash in block mode leaves just the block. Every cleanup of it, however long, reports
   success and leaves IPv6 as locked as it was: every packet not on loopback is dropped.
   */
  lemma SuccessMissesBlock(budget: nat, late: bool, p: Packet, d: nat)
    ensures var block := Ipv6Rules(BlockV6, []);
            var t6: Table := map[OUTPUT := block];
            var s := Start(true, EMPTY, true, t6, block, {}, true, budget, late);
            && ReportsSuccess(s) && !AllClear(s)
            && OUTPUT in FullyCleaned(t6)
            && Walk(FullyCleaned(t6), FullyCleaned(t6)[OUTPUT], p, d) == if p.outIface == "lo" then Accepted else Dropped
  {
    var block := Ipv6Rules(BlockV6, []);
    var t6: Table := map[OUTPUT := block];
    assert LOOPBACK in block && t6[OUTPUT] == block + [];
    SuccessTrueIff(Start(true, EMPTY, true, t6, block, {}, true, budget, late));
    BlockOutlivesCleanup(t6, BlockV6, [], [], p, d);
  }
}
