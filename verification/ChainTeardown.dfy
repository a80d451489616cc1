/**
 Taking a chain down: delete its jumps from OUTPUT in a bounded loop, flush it, delete
 it. Every cleanup path of the kill switch does this for one chain or another.
 */
module ChainTeardown {
  import opened PacketFilter

  function JumpTo(c: string): Rule {
    Rule([], Jump(c))
  }

  /** The rules of chain `k` refer to `c` by something else than a plain jump in OUTPUT. */
  predicate RefersOtherwise(k: string, rules: seq<Rule>, c: string) {
    exists r <- rules :: r.target == Jump(c) && !(k == OUTPUT && r == JumpTo(c))
  }

  /** A reference to the chain that the teardown does not remove. */
  predicate OtherReference(t: Table, c: string) {
    exists k <- t :: k != c && RefersOtherwise(k, t[k], c)
  }

  /** What the three steps leave, without mentioning any step. */
  function TornDown(t: Table, c: string, limit: nat): Table
    requires OUTPUT in t
  {
    var t1 := t[OUTPUT := RemoveUpTo(t[OUTPUT], JumpTo(c), limit)];
    if c !in t then t1
    else if Count(t[OUTPUT], JumpTo(c)) > limit || OtherReference(t, c) then t1[c := []]
    else t1 - {c}
  }

  /** Trimming the plain jumps keeps every other reference. */
  lemma OtherReferenceStays(t: Table, c: string, limit: nat)
    requires OUTPUT in t && c != OUTPUT && OtherReference(t, c)
    ensures Referenced(t[OUTPUT := RemoveUpTo(t[OUTPUT], JumpTo(c), limit)][c := []], c)
  {
    var t2 := t[OUTPUT := RemoveUpTo(t[OUTPUT], JumpTo(c), limit)][c := []];
    var k :| k in t && k != c && RefersOtherwise(k, t[k], c);
    var r: Rule :| r in t[k] && r.target == Jump(c) && !(k == OUTPUT && r == JumpTo(c));
    if k == OUTPUT {
      RemoveUpToOthers(t[OUTPUT], JumpTo(c), limit, r);
    }
    assert r in t2[k] && Refers(t2[k], c);
  }

  /** A reference that is left is a plain jump too many or another reference. */
  lemma ReferenceLeft(t: Table, c: string, limit: nat)
    requires OUTPUT in t && c != OUTPUT
    requires Referenced(t[OUTPUT := RemoveUpTo(t[OUTPUT], JumpTo(c), limit)][c := []], c)
    ensures JumpTo(c) in RemoveUpTo(t[OUTPUT], JumpTo(c), limit) || OtherReference(t, c)
  {
    var t2 := t[OUTPUT := RemoveUpTo(t[OUTPUT], JumpTo(c), limit)][c := []];
    var k :| k in t2 && Refers(t2[k], c);
    var r: Rule :| r in t2[k] && r.target == Jump(c);
    if k == OUTPUT && r != JumpTo(c) {
      RemoveUpToOthers(t[OUTPUT], JumpTo(c), limit, r);
    }
    assert k != OUTPUT || r != JumpTo(c) ==> RefersOtherwise(k, t[k], c);
  }

  lemma StillReferenced(t: Table, c: string, limit: nat)
    requires OUTPUT in t && c in t && c != OUTPUT
    ensures var t2 := t[OUTPUT := RemoveUpTo(t[OUTPUT], JumpTo(c), limit)][c := []];
            Referenced(t2, c) <==> Count(t[OUTPUT], JumpTo(c)) > limit || OtherReference(t, c)
  {
    var left := RemoveUpTo(t[OUTPUT], JumpTo(c), limit);
    var t2 := t[OUTPUT := left][c := []];
    RemoveUpToFacts(t[OUTPUT], JumpTo(c), limit);
    RemoveFirstFacts(left, JumpTo(c));
    if Referenced(t2, c) {
      ReferenceLeft(t, c, limit);
    }
    if OtherReference(t, c) {
      OtherReferenceStays(t, c, limit);
    }
    if JumpTo(c) in left {
      assert Refers(t2[OUTPUT], c);
    }
  }

  /** Deleting, flushing and removing the chain has exactly that effect. */
  lemma TeardownSteps(t: Table, c: string, limit: nat)
    requires OUTPUT in t && c !in BUILTIN
    ensures Do(Do(Trimmed(t, OUTPUT, JumpTo(c), limit), FlushChain(c)), DeleteChain(c)) == TornDown(t, c, limit)
  {
    if c in t {
      StillReferenced(t, c, limit);
    }
  }

  /** Once nothing but removable jumps refers to the chain, both are gone and nothing else is. */
  lemma TornDownClean(t: Table, c: string, limit: nat)
    requires OUTPUT in t && c !in BUILTIN
    requires Count(t[OUTPUT], JumpTo(c)) <= limit && !OtherReference(t, c)
    ensures TornDown(t, c, limit) == (t - {c})[OUTPUT := Without(t[OUTPUT], JumpTo(c))]
  {
    RemoveUpToFacts(t[OUTPUT], JumpTo(c), limit);
  }

  /** The chain survives exactly when something the teardown does not remove refers to it. */
  lemma SurvivesIff(t: Table, c: string, limit: nat)
    requires OUTPUT in t && c !in BUILTIN
    ensures c in TornDown(t, c, limit) <==> c in t && (Count(t[OUTPUT], JumpTo(c)) > limit || OtherReference(t, c))
  {
  }

  /** Other references are untouched by removing plain jumps. */
  lemma TrimKeepsOtherReferences(t: Table, q: string, limit: nat, c: string)
    requires OUTPUT in t
    ensures OtherReference(Trimmed(t, OUTPUT, JumpTo(q), limit), c) <==> OtherReference(t, c)
  {
    var t' := Trimmed(t, OUTPUT, JumpTo(q), limit);
    forall k | k in t ensures RefersOtherwise(k, t'[k], c) <==> RefersOtherwise(k, t[k], c) {
      if k == OUTPUT {
        forall r: Rule | r != JumpTo(q) ensures r in t'[k] <==> r in t[k] {
          RemoveUpToOthers(t[k], JumpTo(q), limit, r);
        }
      }
    }
  }

  lemma OwnRulesDoNotMatter(t: Table, c: string, body: seq<Rule>)
    requires c in t
    ensures OtherReference(t[c := body], c) <==> OtherReference(t, c)
  {
    var t' := t[c := body];
    forall k | k in t && k != c ensures t'[k] == t[k] {
    }
  }

  lemma TrimmedTwice(rules: seq<Rule>, r: Rule, limit: nat)
    ensures RemoveUpTo(RemoveUpTo(rules, r, limit), r, limit) == RemoveUpTo(rules, r, limit) <==>
            Count(rules, r) <= limit || limit == 0
  {
    var once := RemoveUpTo(rules, r, limit);
    RemoveUpToFacts(rules, r, limit);
    RemoveUpToFacts(once, r, limit);
    NoneLeft(once, r);
  }

  /** Tearing down again changes nothing exactly when one round was enough for the jumps. */
  lemma TornDownTwiceIff(t: Table, c: string, limit: nat)
    requires OUTPUT in t && c !in BUILTIN
    ensures TornDown(TornDown(t, c, limit), c, limit) == TornDown(t, c, limit) <==>
            Count(t[OUTPUT], JumpTo(c)) <= limit || limit == 0
  {
    var once := RemoveUpTo(t[OUTPUT], JumpTo(c), limit);
    var t' := TornDown(t, c, limit);
    TrimmedTwice(t[OUTPUT], JumpTo(c), limit);
    RemoveUpToFacts(t[OUTPUT], JumpTo(c), limit);
    assert t'[OUTPUT] == once && TornDown(t', c, limit)[OUTPUT] == RemoveUpTo(once, JumpTo(c), limit);
    if c in t' && (Count(t[OUTPUT], JumpTo(c)) <= limit || limit == 0) {
      TrimKeepsOtherReferences(t, c, limit, c);
      OwnRulesDoNotMatter(Trimmed(t, OUTPUT, JumpTo(c), limit), c, []);
      assert t' == Trimmed(t, OUTPUT, JumpTo(c), limit)[c := []];
    }
  }

  /** Jumps lead to chains that exist, as the kernel insists. */
  predicate Closed(t: Table) {
    forall k <- t :: forall r <- t[k] :: TargetExists(t, r)
  }

  /** No rule refers to a chain that does not exist. */
  lemma AbsentUnreferenced(t: Table, c: string)
    requires Closed(t) && c !in t
    ensures !Referenced(t, c) && !OtherReference(t, c)
    ensures OUTPUT in t ==> Count(t[OUTPUT], JumpTo(c)) == 0
  {
    forall k | k in t ensures !Refers(t[k], c) && !RefersOtherwise(k, t[k], c) {
      forall r | r in t[k] ensures r.target != Jump(c) {
        assert TargetExists(t, r);
      }
    }
    if OUTPUT in t {
      RemoveFirstFacts(t[OUTPUT], JumpTo(c));
    }
  }

  /** A jump in front to a chain that decides everything decides everything. */
  lemma FrontJumpDecides(t: Table, c: string, rest: seq<Rule>, p: Packet, d: nat)
    requires c in t && d >= 1 && Walk(t, t[c], p, d - 1) != Continue
    ensures Walk(t, [JumpTo(c)] + rest, p, d) == Walk(t, t[c], p, d - 1)
  {
    assert ([JumpTo(c)] + rest)[0] == JumpTo(c);
  }
}
