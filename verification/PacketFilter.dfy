/**
 A model of one iptables filter table: named chains of rules, first-match evaluation
 with jumps, and the six commands the kill switch issues.
 */
module PacketFilter {
  import opened Cidr

  datatype Protocol = Udp | Tcp | Icmp | OtherProtocol

  datatype Packet = Packet(outIface: string, protocol: Protocol, sport: nat, dport: nat, dst: nat, established: bool)

  datatype Match =
    | OutIface(name: string)        // -o lo
    | OutIfacePrefix(name: string)  // -o tun+
    | StateEstablished              // -m state --state ESTABLISHED,RELATED
    | ConntrackEstablished          // -m conntrack --ctstate ESTABLISHED,RELATED
    | IsProtocol(protocol: Protocol)
    | DPort(low: nat, high: nat)
    | SPort(low: nat, high: nat)
    | Dst(subnet: Cidr, bits: nat)

  datatype Target = Accept | Drop | Log | Jump(chain: string)

  datatype Rule = Rule(matches: seq<Match>, target: Target)

  type Table = map<string, seq<Rule>>

  const OUTPUT := "OUTPUT"
  const BUILTIN := {"INPUT", "FORWARD", "OUTPUT"}

  // ---------------------------------------------------------------------
  // Verdicts
  // ---------------------------------------------------------------------

  predicate InSubnet(c: Cidr, x: nat, bits: nat) {
    c.prefix <= bits && Contains(c, x, bits)
  }

  predicate Holds(p: Packet, m: Match) {
    match m
    case OutIface(name) => p.outIface == name
    case OutIfacePrefix(name) => name <= p.outIface
    case StateEstablished => p.established
    case ConntrackEstablished => p.established
    case IsProtocol(x) => p.protocol == x
    case DPort(low, high) => low <= p.dport <= high
    case SPort(low, high) => low <= p.sport <= high
    case Dst(c, bits) => InSubnet(c, p.dst, bits)
  }

  predicate AllHold(p: Packet, ms: seq<Match>) {
    ms == [] || (Holds(p, ms[0]) && AllHold(p, ms[1..]))
  }

  datatype Verdict = Accepted | Dropped | Continue

  /**
   First-match evaluation of a chain. A chain that decides nothing returns to its
   caller. `depth` bounds the nesting of jumps; the kernel refuses looping tables.
   */
  function Walk(t: Table, rules: seq<Rule>, p: Packet, depth: nat): Verdict
    decreases depth, |rules|
  {
    if rules == [] then Continue
    else if !AllHold(p, rules[0].matches) then Walk(t, rules[1..], p, depth)
    else
      match rules[0].target
      case Accept => Accepted
      case Drop => Dropped
      case Log => Walk(t, rules[1..], p, depth)
      case Jump(c) =>
        var v := if depth > 0 && c in t then Walk(t, t[c], p, depth - 1) else Continue;
        if v == Continue then Walk(t, rules[1..], p, depth) else v
  }

  lemma {:induction false} WalkConcat(t: Table, a: seq<Rule>, b: seq<Rule>, p: Packet, depth: nat)
    ensures Walk(t, a + b, p, depth) ==
            if Walk(t, a, p, depth) == Continue then Walk(t, b, p, depth) else Walk(t, a, p, depth)
    decreases |a|
  {
    if a == [] {
      assert a + b == b;
    } else {
      assert (a + b)[1..] == a[1..] + b;
      WalkConcat(t, a[1..], b, p, depth);
    }
  }

  lemma WalkOne(t: Table, r: Rule, p: Packet, depth: nat)
    requires !r.target.Jump?
    ensures Walk(t, [r], p, depth) ==
            if !AllHold(p, r.matches) || r.target.Log? then Continue
            else if r.target.Accept? then Accepted else Dropped
  {
    assert [r][1..] == [];
  }

  predicate JumpFree(rules: seq<Rule>) {
    forall r <- rules :: !r.target.Jump?
  }

  /** A chain without jumps decides the same whatever the other chains are. */
  lemma {:induction false} JumpFreeLocal(t: Table, t': Table, rules: seq<Rule>, p: Packet, d: nat, d': nat)
    requires JumpFree(rules)
    ensures Walk(t, rules, p, d) == Walk(t', rules, p, d')
    decreases |rules|
  {
    if rules != [] {
      assert rules[0] in rules;
      JumpFreeLocal(t, t', rules[1..], p, d, d');
    }
  }

  // ---------------------------------------------------------------------
  // Commands
  // ---------------------------------------------------------------------

  datatype Command =
    | NewChain(chain: string)                    // -N
    | FlushChain(chain: string)                  // -F
    | DeleteChain(chain: string)                 // -X
    | AppendRule(chain: string, rule: Rule)      // -A
    | InsertRule(chain: string, position: nat, rule: Rule)  // -I
    | DeleteRule(chain: string, rule: Rule)      // -D

  predicate Refers(rules: seq<Rule>, c: string) {
    exists r <- rules :: r.target == Jump(c)
  }

  predicate Referenced(t: Table, c: string) {
    exists k <- t :: Refers(t[k], c)
  }

  predicate TargetExists(t: Table, r: Rule) {
    r.target.Jump? ==> r.target.chain in t
  }

  /** When the command succeeds. */
  predicate Can(t: Table, cmd: Command) {
    match cmd
    case NewChain(c) => c !in t
    case FlushChain(c) => c in t
    case DeleteChain(c) => c in t && c !in BUILTIN && t[c] == [] && !Referenced(t, c)
    case AppendRule(c, r) => c in t && TargetExists(t, r)
    case InsertRule(c, pos, r) => c in t && 1 <= pos <= |t[c]| + 1 && TargetExists(t, r)
    case DeleteRule(c, r) => c in t && r in t[c]
  }

  /** The table after the command; a failing command leaves it as it was. */
  function Do(t: Table, cmd: Command): Table {
    if !Can(t, cmd) then t
    else
      match cmd
      case NewChain(c) => t[c := []]
      case FlushChain(c) => t[c := []]
      case DeleteChain(c) => t - {c}
      case AppendRule(c, r) => t[c := t[c] + [r]]
      case InsertRule(c, pos, r) => t[c := t[c][..pos - 1] + [r] + t[c][pos - 1..]]
      case DeleteRule(c, r) => t[c := RemoveFirst(t[c], r)]
  }

  /** The table after the first commands of a script, failed ones included. */
  function After(t: Table, script: seq<Command>): Table {
    if script == [] then t else Do(After(t, script[..|script| - 1]), script[|script| - 1])
  }

  lemma {:induction false} AfterConcat(t: Table, a: seq<Command>, b: seq<Command>)
    ensures After(t, a + b) == After(After(t, a), b)
  {
    if b == [] {
      assert a + b == a;
    } else {
      assert (a + b)[..|a + b| - 1] == a + b[..|b| - 1];
      AfterConcat(t, a, b[..|b| - 1]);
    }
  }

  /** The binary of an address family takes destinations of that family only. */
  predicate RightFamily(r: Rule, bits: nat) {
    forall m <- r.matches :: m.Dst? ==> m.bits == bits
  }

  predicate Parses(cmd: Command, bits: nat) {
    cmd.AppendRule? || cmd.InsertRule? || cmd.DeleteRule? ==> RightFamily(cmd.rule, bits)
  }

  /** One table behind one binary, for addresses of `bits` bits. Without the binary every command fails. */
  class Netfilter {
    var chains: Table
    const available: bool
    const bits: nat

    constructor (t: Table, isAvailable: bool, addressBits: nat)
      ensures chains == t && available == isAvailable && bits == addressBits
    {
      chains, available, bits := t, isAvailable, addressBits;
    }

    method Execute(cmd: Command) returns (ok: bool)
      modifies this
      ensures ok == (available && Parses(cmd, bits) && Can(old(chains), cmd))
      ensures chains == if available && Parses(cmd, bits) then Do(old(chains), cmd) else old(chains)
    {
      ok := available && Parses(cmd, bits) && Can(chains, cmd);
      if ok {
        chains := Do(chains, cmd);
      }
    }

    /** Delete the rule until that fails, at most `limit` times. */
    method DeleteAll(chain: string, rule: Rule, limit: nat)
      requires RightFamily(rule, bits)
      modifies this
      ensures chains == if available then Trimmed(old(chains), chain, rule, limit) else old(chains)
    {
      var i := 0;
      while i < limit
        invariant 0 <= i <= limit
        invariant chains == if available then Trimmed(old(chains), chain, rule, i) else old(chains)
      {
        var ok := Execute(DeleteRule(chain, rule));
        if available {
          TrimStep(old(chains), chain, rule, i);
        }
        i := i + 1;
        if !ok {
          if available {
            TrimDone(old(chains), chain, rule, i - 1, limit);
          }
          break;
        }
      }
    }
  }

  // ---------------------------------------------------------------------
  // Removing rules
  // ---------------------------------------------------------------------

  function RemoveFirst(rules: seq<Rule>, r: Rule): seq<Rule> {
    if rules == [] then []
    else if rules[0] == r then rules[1..]
    else [rules[0]] + RemoveFirst(rules[1..], r)
  }

  function RemoveUpTo(rules: seq<Rule>, r: Rule, n: nat): seq<Rule> {
    if n == 0 then rules else RemoveFirst(RemoveUpTo(rules, r, n - 1), r)
  }

  /** The chain with the first `n` copies of a rule removed, in a table. */
  function Trimmed(t: Table, chain: string, r: Rule, n: nat): Table {
    if chain in t then t[chain := RemoveUpTo(t[chain], r, n)] else t
  }

  function Count(rules: seq<Rule>, r: Rule): nat {
    if rules == [] then 0 else (if rules[0] == r then 1 else 0) + Count(rules[1..], r)
  }

  /** Every other rule, in order. */
  function Without(rules: seq<Rule>, r: Rule): seq<Rule> {
    if rules == [] then []
    else (if rules[0] == r then [] else [rules[0]]) + Without(rules[1..], r)
  }

  lemma {:induction false} RemoveFirstFacts(rules: seq<Rule>, r: Rule)
    ensures Without(RemoveFirst(rules, r), r) == Without(rules, r)
    ensures Count(RemoveFirst(rules, r), r) == if Count(rules, r) == 0 then 0 else Count(rules, r) - 1
    ensures r in rules <==> Count(rules, r) > 0
    ensures r !in rules ==> RemoveFirst(rules, r) == rules
  {
    if rules != [] {
      RemoveFirstFacts(rules[1..], r);
      var rest := RemoveFirst(rules[1..], r);
      if rules[0] != r {
        assert ([rules[0]] + rest)[1..] == rest;
      }
    }
  }

  lemma {:induction false} NoneLeft(rules: seq<Rule>, r: Rule)
    ensures Count(rules, r) == 0 <==> Without(rules, r) == rules
    ensures r !in Without(rules, r)
    ensures |Without(rules, r)| <= |rules|
  {
    if rules != [] {
      NoneLeft(rules[1..], r);
      if rules[0] != r {
        assert Without(rules, r)[1..] == Without(rules[1..], r);
      }
    }
  }

  lemma {:induction false} RemoveUpToCount(rules: seq<Rule>, r: Rule, n: nat)
    ensures Without(RemoveUpTo(rules, r, n), r) == Without(rules, r)
    ensures Count(RemoveUpTo(rules, r, n), r) == if Count(rules, r) <= n then 0 else Count(rules, r) - n
  {
    if n > 0 {
      RemoveUpToCount(rules, r, n - 1);
      RemoveFirstFacts(RemoveUpTo(rules, r, n - 1), r);
    }
  }

  /** What a bounded delete loop leaves, exactly. */
  lemma RemoveUpToFacts(rules: seq<Rule>, r: Rule, n: nat)
    ensures Without(RemoveUpTo(rules, r, n), r) == Without(rules, r)
    ensures Count(RemoveUpTo(rules, r, n), r) == if Count(rules, r) <= n then 0 else Count(rules, r) - n
    ensures Count(rules, r) <= n <==> RemoveUpTo(rules, r, n) == Without(rules, r)
  {
    RemoveUpToCount(rules, r, n);
    NoneLeft(RemoveUpTo(rules, r, n), r);
    NoneLeft(rules, r);
    RemoveFirstFacts(Without(rules, r), r);
  }

  lemma TrimStep(t: Table, chain: string, r: Rule, n: nat)
    ensures Do(Trimmed(t, chain, r, n), DeleteRule(chain, r)) == Trimmed(t, chain, r, n + 1)
  {
    if chain in t {
      RemoveFirstFacts(RemoveUpTo(t[chain], r, n), r);
    }
  }

  /** Once a delete fails, further ones would change nothing. */
  lemma {:induction false} TrimDone(t: Table, chain: string, r: Rule, n: nat, limit: nat)
    requires n <= limit && !Can(Trimmed(t, chain, r, n), DeleteRule(chain, r))
    ensures Trimmed(t, chain, r, n) == Trimmed(t, chain, r, limit)
    decreases limit - n
  {
    if n < limit {
      TrimStep(t, chain, r, n);
      TrimDone(t, chain, r, n + 1, limit);
    }
  }

  /** Removing copies of one rule keeps every other rule. */
  lemma {:induction false} RemoveUpToOthers(rules: seq<Rule>, r: Rule, n: nat, other: Rule)
    requires other != r
    ensures other in RemoveUpTo(rules, r, n) <==> other in rules
  {
    if n > 0 {
      RemoveUpToOthers(rules, r, n - 1, other);
      RemoveFirstOthers(RemoveUpTo(rules, r, n - 1), r, other);
    }
  }

  lemma {:induction false} RemoveFirstOthers(rules: seq<Rule>, r: Rule, other: Rule)
    requires other != r
    ensures other in RemoveFirst(rules, r) <==> other in rules
  {
    if rules != [] && rules[0] != r {
      RemoveFirstOthers(rules[1..], r, other);
    }
  }

  lemma {:induction false} CountAfterOther(rules: seq<Rule>, q: Rule, r: Rule, n: nat)
    requires q != r
    ensures Count(RemoveUpTo(rules, q, n), r) == Count(rules, r)
  {
    if n > 0 {
      CountAfterOther(rules, q, r, n - 1);
      CountRemoveFirstOther(RemoveUpTo(rules, q, n - 1), q, r);
    }
  }

  lemma {:induction false} CountRemoveFirstOther(rules: seq<Rule>, q: Rule, r: Rule)
    requires q != r
    ensures Count(RemoveFirst(rules, q), r) == Count(rules, r)
  {
    if rules != [] && rules[0] != q {
      CountRemoveFirstOther(rules[1..], q, r);
      var rest := RemoveFirst(rules[1..], q);
      assert ([rules[0]] + rest)[1..] == rest;
    }
  }

  // ---------------------------------------------------------------------
  // Chains that do not matter
  // ---------------------------------------------------------------------

  predicate RefersInto(rules: seq<Rule>, xs: set<string>) {
    exists r <- rules :: r.target.Jump? && r.target.chain in xs
  }

  /** The tables agree outside `xs`, and nothing outside leads into `xs`. */
  predicate AgreeOutside(t: Table, t': Table, xs: set<string>) {
    && t.Keys - xs == t'.Keys - xs
    && forall k <- t :: k !in xs ==> k in t' && t'[k] == t[k] && !RefersInto(t[k], xs)
  }

  /** Then rules that do not lead into `xs` either decide the same in both. */
  lemma {:induction false} WalkAgrees(t: Table, t': Table, xs: set<string>, rules: seq<Rule>, p: Packet, d: nat)
    requires AgreeOutside(t, t', xs) && !RefersInto(rules, xs)
    ensures Walk(t, rules, p, d) == Walk(t', rules, p, d)
    decreases d, |rules|
  {
    if rules != [] {
      assert rules[0] in rules && rules == [rules[0]] + rules[1..];
      WalkAgrees(t, t', xs, rules[1..], p, d);
      if rules[0].target.Jump? && d > 0 {
        var k := rules[0].target.chain;
        assert k in t <==> k in t.Keys - xs;
        assert k in t' <==> k in t'.Keys - xs;
        if k in t {
          WalkAgrees(t, t', xs, t[k], p, d - 1);
        }
      }
    }
  }
}
