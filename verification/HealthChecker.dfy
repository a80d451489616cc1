/**
 Interpreting completed health probes: two threshold counters that turn a stream
 of probe outcomes into verdicts, and the loop that keeps at most one probe alive.
 */
module HealthChecker {
  import opened Basics

  /** A successful endpoint probe. */
  datatype EndpointHit = EndpointHit(endpoint: string, latencyMs: nat, body: string)

  datatype DnsLeakResult = Secure | Leak | Unknown

  /**
   One completed probe together with what the checker reads besides it: the exit
   address found in the body, and the state of the resolver configuration.
   */
  datatype Observation = Observation(hit: Option<EndpointHit>, detectedIp: Option<string>, dns: DnsLeakResult)

  datatype HealthResult = Healthy | Degraded(latencyMs: nat) | Dead(reason: string)

  datatype HealthConfig = HealthConfig(
    timeoutSecs: nat,
    degradedThresholdMs: nat,
    failureThreshold: U32,
    degradedThreshold: U32,
    expectedExitIp: Option<string>,
    dnsLeakCheck: bool)

  datatype Counters = Counters(failures: U32, degraded: U32)

  /** What one observation amounts to, in the order the checks are made. */
  datatype Sighting = Miss | Mismatch | Leaking | Slow | Good

  function Sight(c: HealthConfig, o: Observation): Sighting {
    if o.hit.None? then Miss
    else if c.expectedExitIp.Some? && o.detectedIp.Some? && o.detectedIp != c.expectedExitIp then Mismatch
    else if c.dnsLeakCheck && o.dns.Leak? then Leaking
    else if o.hit.value.latencyMs > c.degradedThresholdMs then Slow
    else Good
  }

  function CountersAfter(n: Counters, s: Sighting): Counters {
    match s
    case Miss => Counters(Increment(n.failures), Increment(n.degraded))
    case Mismatch => n.(failures := 0)
    case Leaking => n.(failures := 0)
    case Slow => Counters(0, Increment(n.degraded))
    case Good => Counters(0, 0)
  }

  class HealthChecker {
    const config: HealthConfig
    var consecutiveFailures: U32
    var consecutiveDegraded: U32
    /** Checks are suspended until this time. */
    var suspendedUntil: Option<nat>

    ghost function Value(): Counters
      reads this
    {
      Counters(consecutiveFailures, consecutiveDegraded)
    }

    constructor (c: HealthConfig)
      ensures config == c && Value() == Counters(0, 0) && suspendedUntil.None?
    {
      config, consecutiveFailures, consecutiveDegraded, suspendedUntil := c, 0, 0, None;
    }

    method Reset()
      modifies this
      ensures Value() == Counters(0, 0) && suspendedUntil.None?
    {
      consecutiveFailures, consecutiveDegraded, suspendedUntil := 0, 0, None;
    }

    /** Suspending keeps the counters for the check after the suspension. */
    method Suspend(now: nat, duration: nat)
      modifies this`suspendedUntil
      ensures forall t :: now <= t ==> (IsSuspended(t) <==> t < now + duration)
    {
      suspendedUntil := Some(now + duration);
    }

    predicate IsSuspended(now: nat)
      reads this
    {
      suspendedUntil.Some? && now < suspendedUntil.value
    }

    /** Update the counters for one probe and give its verdict. */
    method Evaluate(o: Observation) returns (r: HealthResult)
      modifies this`consecutiveFailures, this`consecutiveDegraded
      ensures Value() == CountersAfter(old(Value()), Sight(config, o))
      ensures r == Verdict(config, Value(), o)
    {
      if o.hit.Some? {
        consecutiveFailures := 0;
        if config.expectedExitIp.Some? && o.detectedIp.Some? {
          if o.detectedIp.value != config.expectedExitIp.value {
            return Dead(LeakText(config.expectedExitIp.value, o.detectedIp.value));
          }
        }
        if config.dnsLeakCheck && o.dns.Leak? {
          return Degraded(o.hit.value.latencyMs);
        }
        if o.hit.value.latencyMs > config.degradedThresholdMs {
          consecutiveDegraded := Increment(consecutiveDegraded);
          if consecutiveDegraded >= config.degradedThreshold {
            return Degraded(o.hit.value.latencyMs);
          }
          return Healthy;
        }
        consecutiveDegraded := 0;
        return Healthy;
      }
      consecutiveFailures := Increment(consecutiveFailures);
      consecutiveDegraded := Increment(consecutiveDegraded);
      if consecutiveFailures >= config.failureThreshold {
        return Dead(StreakText(consecutiveFailures));
      }
      return Degraded(config.timeoutSecs * 1000);
    }
  }

  function LeakText(expected: string, actual: string): string {
    "IP leak detected: expected " + expected + ", got " + actual
  }

  function StreakText(failures: nat): string {
    Decimal(failures) + " consecutive failures across all endpoints"
  }

  /** The verdict on `o`, given the counters as they stand after counting it. */
  function Verdict(c: HealthConfig, n: Counters, o: Observation): HealthResult {
    match Sight(c, o)
    case Miss => if n.failures >= c.failureThreshold then Dead(StreakText(n.failures)) else Degraded(c.timeoutSecs * 1000)
    case Mismatch => Dead(LeakText(c.expectedExitIp.value, o.detectedIp.value))
    case Leaking => Degraded(o.hit.value.latencyMs)
    case Slow => if n.degraded >= c.degradedThreshold then Degraded(o.hit.value.latencyMs) else Healthy
    case Good => Healthy
  }

  // ---------------------------------------------------------------------
  // What the counters mean
  // ---------------------------------------------------------------------

  /** The counters after a history since the last reset. */
  function CountersOf(h: seq<Sighting>): Counters {
    if h == [] then Counters(0, 0) else CountersAfter(CountersOf(h[..|h| - 1]), h[|h| - 1])
  }

  /** The longest run of misses at the end of the history. */
  function TrailingMisses(h: seq<Sighting>): (k: nat)
    ensures k <= |h|
    ensures forall i :: |h| - k <= i < |h| ==> h[i] == Miss
    ensures k < |h| ==> h[|h| - 1 - k] != Miss
  {
    if h == [] || h[|h| - 1] != Miss then 0 else 1 + TrailingMisses(h[..|h| - 1])
  }

  /** Slow or missed probes since the last good one, whatever came between them. */
  function TroubledSinceGood(h: seq<Sighting>): (k: nat)
    ensures k <= |h|
  {
    if h == [] || h[|h| - 1] == Good then 0
    else (if h[|h| - 1] in {Miss, Slow} then 1 else 0) + TroubledSinceGood(h[..|h| - 1])
  }

  lemma IncrementModulo(k: nat)
    ensures Increment(k % U32_MODULUS) == (k + 1) % U32_MODULUS
  {
  }

  /** Both counters are functions of the history, up to 32-bit wrap-around. */
  lemma {:induction false} CountersMeaning(h: seq<Sighting>)
    ensures CountersOf(h) == Counters(TrailingMisses(h) % U32_MODULUS, TroubledSinceGood(h) % U32_MODULUS)
  {
    if h != [] {
      var before := h[..|h| - 1];
      CountersMeaning(before);
      IncrementModulo(TrailingMisses(before));
      IncrementModulo(TroubledSinceGood(before));
    }
  }

  // ---------------------------------------------------------------------
  // What the verdicts mean, in terms of what was observed
  // ---------------------------------------------------------------------

  /** The probe got through and shows another address than the configured one. */
  predicate ShowsOtherAddress(c: HealthConfig, o: Observation) {
    && o.hit.Some? && c.expectedExitIp.Some? && o.detectedIp.Some?
    && o.detectedIp.value != c.expectedExitIp.value
  }

  /** The probe got through, shows no other address, and no leak that is looked for. */
  predicate IsClean(c: HealthConfig, o: Observation) {
    o.hit.Some? && !ShowsOtherAddress(c, o) && !(c.dnsLeakCheck && o.dns == Leak)
  }

  /** The number of observations without a hit at the end. */
  function TrailingWithoutHit(h: seq<Observation>): (k: nat)
    ensures k <= |h| && (forall i :: |h| - k <= i < |h| ==> h[i].hit.None?)
    ensures k < |h| ==> h[|h| - 1 - k].hit.Some?
  {
    if h == [] || h[|h| - 1].hit.Some? then 0 else 1 + TrailingWithoutHit(h[..|h| - 1])
  }

  /** Observations without a hit, or clean but slow, since the last clean and fast one. */
  function SlowStreak(c: HealthConfig, h: seq<Observation>): (k: nat)
    ensures k <= |h|
  {
    if h == [] then 0
    else
      var o := h[|h| - 1];
      if IsClean(c, o) && o.hit.value.latencyMs <= c.degradedThresholdMs then 0
      else (if o.hit.None? || IsClean(c, o) then 1 else 0) + SlowStreak(c, h[..|h| - 1])
  }

  /** The counters after a history of observations since the last reset. */
  function CountersSeen(c: HealthConfig, h: seq<Observation>): Counters {
    if h == [] then Counters(0, 0) else CountersAfter(CountersSeen(c, h[..|h| - 1]), Sight(c, h[|h| - 1]))
  }

  function Sights(c: HealthConfig, h: seq<Observation>): (s: seq<Sighting>)
    ensures |s| == |h| && forall i :: 0 <= i < |h| ==> s[i] == Sight(c, h[i])
  {
    seq(|h|, i requires 0 <= i < |h| => Sight(c, h[i]))
  }

  lemma {:induction false} SeenIsSighted(c: HealthConfig, h: seq<Observation>)
    ensures CountersSeen(c, h) == CountersOf(Sights(c, h))
    ensures TrailingMisses(Sights(c, h)) == TrailingWithoutHit(h)
    ensures TroubledSinceGood(Sights(c, h)) == SlowStreak(c, h)
  {
    if h != [] {
      SeenIsSighted(c, h[..|h| - 1]);
      assert Sights(c, h)[..|h| - 1] == Sights(c, h[..|h| - 1]);
    }
  }

  /** The counters, over every history of observations, up to 32-bit wrap-around. */
  lemma SeenMeaning(c: HealthConfig, h: seq<Observation>)
    ensures CountersSeen(c, h) == Counters(TrailingWithoutHit(h) % 0x1_0000_0000, SlowStreak(c, h) % 0x1_0000_0000)
  {
    SeenIsSighted(c, h);
    CountersMeaning(Sights(c, h));
  }

  /**
   `Dead` exactly when a hit shows another address than the configured one, or when there
   is no hit and the observations without one, counted in 32 bits, have reached
   `failure_threshold`.
   */
  lemma DeadIff(c: HealthConfig, h: seq<Observation>, o: Observation)
    ensures Verdict(c, CountersSeen(c, h + [o]), o).Dead? <==>
            || (o.hit.Some? && c.expectedExitIp.Some? && o.detectedIp.Some? && o.detectedIp.value != c.expectedExitIp.value)
            || (o.hit.None? && TrailingWithoutHit(h + [o]) % 0x1_0000_0000 >= c.failureThreshold)
  {
    SeenMeaning(c, h + [o]);
  }

  /**
   `Healthy` exactly when a hit shows neither another address nor a leak that is looked
   for, and is fast, or slow while the slow streak is still short.
   */
  lemma HealthyIff(c: HealthConfig, h: seq<Observation>, o: Observation)
    ensures Verdict(c, CountersSeen(c, h + [o]), o).Healthy? <==>
            && o.hit.Some?
            && !(c.expectedExitIp.Some? && o.detectedIp.Some? && o.detectedIp.value != c.expectedExitIp.value)
            && !(c.dnsLeakCheck && o.dns == Leak)
            && (o.hit.value.latencyMs <= c.degradedThresholdMs ||
                SlowStreak(c, h + [o]) % 0x1_0000_0000 < c.degradedThreshold)
  {
    SeenMeaning(c, h + [o]);
  }

  /** Every other verdict is `Degraded`, with the latency of the hit or the timeout. */
  lemma DegradedShows(c: HealthConfig, n: Counters, o: Observation)
    ensures var v := Verdict(c, n, o);
            v.Degraded? ==> v.latencyMs == if o.hit.Some? then o.hit.value.latencyMs else c.timeoutSecs * 1000
  {
  }

  // ---------------------------------------------------------------------
  // At most one probe alive
  // ---------------------------------------------------------------------

  /**
   The event loop's view of its probes, numbered in launch order: the guard flag,
   the detached tasks, the result channel, and the results applied so far.
   */
  datatype Loop = Loop(inFlight: bool, running: set<nat>, channel: seq<nat>, launched: nat, applied: seq<nat>)

  const IDLE := Loop(false, {}, [], 0, [])

  /** A health tick (with or without permission to probe), a finished task, a received result. */
  datatype LoopStep = Tick(permitted: bool) | Finish(probe: nat) | Receive

  function LoopApply(l: Loop, s: LoopStep): Loop {
    match s
    case Tick(permitted) =>
      if l.inFlight || !permitted then l
      else l.(inFlight := true, running := l.running + {l.launched}, launched := l.launched + 1)
    case Finish(p) =>
      if p !in l.running then l else l.(running := l.running - {p}, channel := l.channel + [p])
    case Receive =>
      if l.channel == [] then l
      else l.(inFlight := false, channel := l.channel[1..], applied := l.applied + [l.channel[0]])
  }

  function LoopRun(l: Loop, steps: seq<LoopStep>): Loop
    decreases |steps|
  {
    if steps == [] then l else LoopRun(LoopApply(l, steps[0]), steps[1..])
  }

  predicate AtMostOneAlive(l: Loop) {
    && |l.running| + |l.channel| == (if l.inFlight then 1 else 0)
    && l.launched == |l.applied| + (if l.inFlight then 1 else 0)
    && (forall p <- l.running :: p == |l.applied|)
    && (forall p <- l.channel :: p == |l.applied|)
    && (forall i :: 0 <= i < |l.applied| ==> l.applied[i] == i)
  }

  lemma LoopApplyKeeps(l: Loop, s: LoopStep)
    requires AtMostOneAlive(l)
    ensures AtMostOneAlive(LoopApply(l, s))
  {
    if s.Finish? && s.probe in l.running {
      assert l.running == {s.probe} + (l.running - {s.probe});
    }
    if s.Receive? && l.channel != [] {
      assert l.channel[0] in l.channel;
    }
  }

  lemma {:induction false} LoopRunKeeps(l: Loop, steps: seq<LoopStep>)
    requires AtMostOneAlive(l)
    ensures AtMostOneAlive(LoopRun(l, steps))
    decreases |steps|
  {
    if steps != [] {
      LoopApplyKeeps(l, steps[0]);
      LoopRunKeeps(LoopApply(l, steps[0]), steps[1..]);
    }
  }

  /**
   However ticks, completions and receptions interleave, at most one probe is
   running or queued, and the results are applied in launch order, each once.
   */
  lemma ProbesAreSerial(steps: seq<LoopStep>)
    ensures var l := LoopRun(IDLE, steps);
            && |l.running| + |l.channel| <= 1
            && l.launched - 1 <= |l.applied| <= l.launched
            && l.applied == seq(|l.applied|, i => i)
  {
    LoopRunKeeps(IDLE, steps);
  }
}
