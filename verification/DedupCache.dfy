/**
 The D-Bus event deduplicator: a cache of recent events that is swept only now and
 then, yet decides as if it remembered every accepted event forever.
 */
module DedupCache {
  import opened Basics

  /** Times are monotonic clock readings in nanoseconds. */
  const NANOS_PER_MILLI: nat := 1_000_000
  const DEDUP_WINDOW_MS: nat := 500
  const CLEANUP_THRESHOLD_MS: nat := 2 * DEDUP_WINDOW_MS
  const MAX_DEDUP_ENTRIES: nat := 256

  type Key = (string, string)

  datatype Signal = Signal(name: string, kind: string, at: nat) {
    function Key(): Key { (name, kind) }
  }

  /** Elapsed whole milliseconds; a clock reading from the future counts as zero. */
  function MillisSince(now: nat, then_: nat): nat {
    if now < then_ then 0 else (now - then_) / NANOS_PER_MILLI
  }

  datatype Cache = Cache(recent: map<Key, nat>, lastPrune: Option<nat>)

  const EMPTY := Cache(map[], None)

  predicate IsDuplicate(recent: map<Key, nat>, s: Signal) {
    s.Key() in recent && MillisSince(s.at, recent[s.Key()]) < DEDUP_WINDOW_MS
  }

  function Swept(c: Cache, now: nat): Cache {
    var due := c.lastPrune.None? || MillisSince(now, c.lastPrune.value) >= CLEANUP_THRESHOLD_MS;
    if due || |c.recent| > MAX_DEDUP_ENTRIES then
      Cache(map k | k in c.recent && MillisSince(now, c.recent[k]) < CLEANUP_THRESHOLD_MS :: c.recent[k], Some(now))
    else c
  }

  /** Decision and next cache for one signal. */
  function Process(c: Cache, s: Signal): (bool, Cache) {
    if s.name == "unknown" || IsDuplicate(c.recent, s) then (false, c)
    else
      var swept := Swept(c, s.at);
      (true, swept.(recent := swept.recent[s.Key() := s.at]))
  }

  class NmMonitor {
    var recentEvents: map<Key, nat>
    var lastPrune: Option<nat>

    ghost function Value(): Cache
      reads this
    {
      Cache(recentEvents, lastPrune)
    }

    constructor ()
      ensures Value() == EMPTY
    {
      recentEvents, lastPrune := map[], None;
    }

    method ShouldProcessEvent(name: string, kind: string, now: nat) returns (process: bool)
      modifies this
      ensures (process, Value()) == Process(old(Value()), Signal(name, kind, now))
    {
      if name == "unknown" {
        return false;
      }
      var key := (name, kind);
      if key in recentEvents {
        if MillisSince(now, recentEvents[key]) < DEDUP_WINDOW_MS {
          return false;
        }
      }
      var dueForSweep := lastPrune.None? || MillisSince(now, lastPrune.value) >= CLEANUP_THRESHOLD_MS;
      if dueForSweep || |recentEvents| > MAX_DEDUP_ENTRIES {
        recentEvents := map k | k in recentEvents && MillisSince(now, recentEvents[k]) < CLEANUP_THRESHOLD_MS :: recentEvents[k];
        lastPrune := Some(now);
      }
      recentEvents := recentEvents[key := now];
      return true;
    }
  }

  // ---------------------------------------------------------------------
  // Runs
  // ---------------------------------------------------------------------

  predicate Chronological(h: seq<Signal>) {
    forall i, j :: 0 <= i <= j < |h| ==> h[i].at <= h[j].at
  }

  /** The cache after a history. */
  function CacheOf(h: seq<Signal>): Cache {
    if h == [] then EMPTY else Process(CacheOf(h[..|h| - 1]), h[|h| - 1]).1
  }

  /** Whether the cache accepted signal `i` of the history. */
  predicate CacheAccepts(h: seq<Signal>, i: nat)
    requires i < |h|
  {
    Process(CacheOf(h[..i]), h[i]).0
  }

  /**
   The reference decision, with no cache at all: accept a named signal unless an
   equal signal was accepted less than 500 ms before.
   */
  ghost predicate Accepts(h: seq<Signal>, i: nat)
    requires i < |h|
  {
    h[i].name != "unknown" &&
    forall j: nat :: j < i && h[j].name == h[i].name && h[j].kind == h[i].kind && Accepts(h, j)
                     ==> MillisSince(h[i].at, h[j].at) >= DEDUP_WINDOW_MS
  }

  /** Signal `j` is the last accepted signal with key `k` in `h`. */
  ghost predicate LastAccepted(h: seq<Signal>, k: Key, j: nat) {
    j < |h| && h[j].Key() == k && Accepts(h, j) &&
    forall i: nat :: j < i < |h| && h[i].Key() == k ==> !Accepts(h, i)
  }

  const SWEEP_NANOS: nat := CLEANUP_THRESHOLD_MS * NANOS_PER_MILLI

  /** An entry is the time of the last accepted signal with its key. */
  ghost predicate EntriesMatch(c: Cache, h: seq<Signal>) {
    forall k <- c.recent :: exists j: nat :: LastAccepted(h, k, j) && c.recent[k] == h[j].at
  }

  /** An accepted signal without an entry is a whole cleanup period older than the last sweep. */
  ghost predicate ForgottenAreOld(c: Cache, h: seq<Signal>) {
    forall j: nat :: j < |h| && Accepts(h, j) && h[j].Key() !in c.recent
                     ==> c.lastPrune.Some? && c.lastPrune.value >= h[j].at + SWEEP_NANOS
  }

  /** No entry was a cleanup period old at the last sweep, which is not in the future. */
  ghost predicate EntriesAreYoung(c: Cache, h: seq<Signal>) {
    && (forall k <- c.recent :: c.lastPrune.Some? && c.lastPrune.value < c.recent[k] + SWEEP_NANOS)
    && (c.lastPrune.Some? ==> h != [] && c.lastPrune.value <= h[|h| - 1].at)
  }

  /** What ties the cache to the history. */
  ghost predicate Represents(c: Cache, h: seq<Signal>) {
    EntriesMatch(c, h) && ForgottenAreOld(c, h) && EntriesAreYoung(c, h)
  }

  /** A decision depends only on the signals up to it. */
  lemma {:induction false} AcceptsPrefix(h: seq<Signal>, n: nat, i: nat)
    requires i < n <= |h|
    ensures Accepts(h[..n], i) == Accepts(h, i)
    decreases i
  {
    forall j: nat | j < i ensures Accepts(h[..n], j) == Accepts(h, j) {
      AcceptsPrefix(h, n, j);
    }
  }

  lemma PrefixDecisions(h: seq<Signal>)
    requires h != []
    ensures forall i: nat :: i < |h| - 1 ==> (Accepts(h[..|h| - 1], i) <==> Accepts(h, i))
  {
    forall i: nat | i < |h| - 1 ensures Accepts(h[..|h| - 1], i) <==> Accepts(h, i) {
      AcceptsPrefix(h, |h| - 1, i);
    }
  }

  /** The reference decision, by key. */
  lemma AcceptsByKey(h: seq<Signal>, i: nat)
    requires i < |h|
    ensures Accepts(h, i) <==>
            h[i].name != "unknown" &&
            forall j: nat :: j < i && h[j].Key() == h[i].Key() && Accepts(h, j)
                             ==> MillisSince(h[i].at, h[j].at) >= DEDUP_WINDOW_MS
  {
    forall j: nat | j < i ensures h[j].Key() == h[i].Key() <==> h[j].name == h[i].name && h[j].kind == h[i].kind {
    }
  }

  /** The next decision of a cache that represents the history is the reference decision. */
  lemma SameDecision(c: Cache, h: seq<Signal>)
    requires h != [] && Chronological(h) && Represents(c, h[..|h| - 1])
    ensures Process(c, h[|h| - 1]).0 <==> Accepts(h, |h| - 1)
  {
    var past, s := h[..|h| - 1], h[|h| - 1];
    PrefixDecisions(h);
    AcceptsByKey(h, |h| - 1);
    if s.Key() in c.recent {
      var j: nat :| LastAccepted(past, s.Key(), j) && c.recent[s.Key()] == past[j].at;
      assert Accepts(h, j) && h[j].Key() == s.Key();
    }
  }

  /** The last accepted signals stay the last when a signal with another key, or none, is accepted. */
  lemma StillLast(h: seq<Signal>, k: Key, j: nat)
    requires h != [] && LastAccepted(h[..|h| - 1], k, j)
    requires h[|h| - 1].Key() != k || !Accepts(h, |h| - 1)
    ensures LastAccepted(h, k, j)
  {
    PrefixDecisions(h);
  }

  lemma RejectKeeps(c: Cache, h: seq<Signal>)
    requires h != [] && Chronological(h) && Represents(c, h[..|h| - 1])
    requires !Process(c, h[|h| - 1]).0
    ensures Represents(c, h)
  {
    var past := h[..|h| - 1];
    SameDecision(c, h);
    PrefixDecisions(h);
    forall k | k in c.recent
      ensures exists j: nat :: LastAccepted(h, k, j) && c.recent[k] == h[j].at
    {
      var j: nat :| LastAccepted(past, k, j) && c.recent[k] == past[j].at;
      StillLast(h, k, j);
    }
  }

  /** After an accepted signal the entries are still the last accepted signals. */
  lemma AcceptKeepsEntries(c: Cache, h: seq<Signal>)
    requires h != [] && Chronological(h) && Represents(c, h[..|h| - 1])
    requires Process(c, h[|h| - 1]).0
    ensures EntriesMatch(Process(c, h[|h| - 1]).1, h)
  {
    var past, s := h[..|h| - 1], h[|h| - 1];
    var c' := Process(c, s).1;
    SameDecision(c, h);
    forall k | k in c'.recent
      ensures exists j: nat :: LastAccepted(h, k, j) && c'.recent[k] == h[j].at
    {
      if k == s.Key() {
        assert LastAccepted(h, k, |h| - 1);
      } else {
        var j: nat :| LastAccepted(past, k, j) && c.recent[k] == past[j].at;
        StillLast(h, k, j);
      }
    }
  }

  /** A sweep forgets only signals that are a cleanup period old. */
  lemma SweepForgetsOld(c: Cache, past: seq<Signal>, now: nat, j: nat)
    requires Represents(c, past) && Chronological(past) && j < |past| && past[|past| - 1].at <= now
    requires Accepts(past, j) && past[j].Key() !in Swept(c, now).recent
    ensures var p := Swept(c, now).lastPrune; p.Some? && p.value >= past[j].at + SWEEP_NANOS
  {
    var k := past[j].Key();
    if k in c.recent {
      var l: nat :| LastAccepted(past, k, l) && c.recent[k] == past[l].at;
      assert j <= l;
      assert past[j].at <= past[l].at <= past[|past| - 1].at;
    }
  }

  lemma AcceptForgetsOld(c: Cache, h: seq<Signal>)
    requires h != [] && Chronological(h) && Represents(c, h[..|h| - 1])
    requires Process(c, h[|h| - 1]).0
    ensures ForgottenAreOld(Process(c, h[|h| - 1]).1, h)
  {
    var past, s := h[..|h| - 1], h[|h| - 1];
    var c' := Process(c, s).1;
    PrefixDecisions(h);
    forall j: nat | j < |h| && Accepts(h, j) && h[j].Key() !in c'.recent
      ensures c'.lastPrune.Some? && c'.lastPrune.value >= h[j].at + SWEEP_NANOS
    {
      assert j < |past| && past[j] == h[j];
      SweepForgetsOld(c, past, s.at, j);
    }
  }

  lemma AcceptKeepsYoung(c: Cache, h: seq<Signal>)
    requires h != [] && Chronological(h) && EntriesAreYoung(c, h[..|h| - 1])
    requires Process(c, h[|h| - 1]).0
    ensures EntriesAreYoung(Process(c, h[|h| - 1]).1, h)
  {
  }

  lemma AcceptKeeps(c: Cache, h: seq<Signal>)
    requires h != [] && Chronological(h) && Represents(c, h[..|h| - 1])
    requires Process(c, h[|h| - 1]).0
    ensures Represents(Process(c, h[|h| - 1]).1, h)
  {
    AcceptKeepsEntries(c, h);
    AcceptForgetsOld(c, h);
    AcceptKeepsYoung(c, h);
  }

  lemma {:induction false} CacheRepresents(h: seq<Signal>)
    requires Chronological(h)
    ensures Represents(CacheOf(h), h)
  {
    if h != [] {
      var past := h[..|h| - 1];
      CacheRepresents(past);
      if Process(CacheOf(past), h[|h| - 1]).0 {
        AcceptKeeps(CacheOf(past), h);
      } else {
        RejectKeeps(CacheOf(past), h);
      }
    }
  }

  /**
   Sweeping changes no decision: over any history the cache accepts exactly the
   signals that the reference, which never forgets, accepts.
   */
  lemma SweepingIsInvisible(h: seq<Signal>, i: nat)
    requires Chronological(h) && i < |h|
    ensures CacheAccepts(h, i) <==> Accepts(h, i)
  {
    var upTo := h[..i + 1];
    assert upTo[..i] == h[..i];
    CacheRepresents(h[..i]);
    SameDecision(CacheOf(h[..i]), upTo);
    AcceptsPrefix(h, i + 1, i);
  }

  /** Two accepted signals with the same key are at least 500 ms apart. */
  lemma AcceptedAreSpaced(h: seq<Signal>, i: nat, j: nat)
    requires Chronological(h) && i < j < |h| && h[i].name == h[j].name && h[i].kind == h[j].kind
    requires CacheAccepts(h, i) && CacheAccepts(h, j)
    ensures h[j].at - h[i].at >= 500_000_000
  {
    SweepingIsInvisible(h, i);
    SweepingIsInvisible(h, j);
  }

  /** Every dropped named signal has an accepted equal signal less than 500 ms before it. */
  lemma DroppedAreCovered(h: seq<Signal>, i: nat)
    requires Chronological(h) && i < |h| && h[i].name != "unknown"
    requires !CacheAccepts(h, i)
    ensures exists j: nat :: j < i && h[j].name == h[i].name && h[j].kind == h[i].kind && CacheAccepts(h, j)
                             && h[i].at - h[j].at < 500_000_000
  {
    SweepingIsInvisible(h, i);
    var j: nat :| && j < i && h[j].name == h[i].name && h[j].kind == h[i].kind && Accepts(h, j)
                  && MillisSince(h[i].at, h[j].at) < DEDUP_WINDOW_MS;
    SweepingIsInvisible(h, j);
  }

  /** A signal without a known name is never accepted. */
  lemma UnknownIsDropped(h: seq<Signal>, i: nat)
    requires i < |h| && h[i].name == "unknown"
    ensures !CacheAccepts(h, i)
  {
  }

  // ---------------------------------------------------------------------
  // The cache stays small
  // ---------------------------------------------------------------------

  /** Accepted signals of the last two cleanup periods. */
  ghost function RecentlyAccepted(h: seq<Signal>): set<nat>
    requires h != []
  {
    set i: nat | i < |h| && CacheAccepts(h, i) && h[|h| - 1].at < h[i].at + 2_000_000_000
  }

  lemma YoungEnough(c: Cache, past: seq<Signal>, s: Signal)
    requires EntriesAreYoung(c, past) && Process(c, s).0 && (past != [] ==> past[|past| - 1].at <= s.at)
    ensures var c' := Process(c, s).1; forall k <- c'.recent :: s.at < c'.recent[k] + 2_000_000_000
  {
  }

  /** Right after an accepted signal every entry is less than 2000 ms old. */
  lemma EntriesAreRecent(h: seq<Signal>)
    requires Chronological(h) && h != [] && CacheAccepts(h, |h| - 1)
    ensures forall k <- CacheOf(h).recent :: h[|h| - 1].at < CacheOf(h).recent[k] + 2_000_000_000
  {
    var past := h[..|h| - 1];
    CacheRepresents(past);
    YoungEnough(CacheOf(past), past, h[|h| - 1]);
  }

  /** A crowded cache, or one not swept for 1000 ms, keeps only entries of the last 1000 ms. */
  lemma SweepWhenDue(c: Cache, s: Signal)
    requires Process(c, s).0
    requires |c.recent| > 256 || c.lastPrune.None? || s.at >= c.lastPrune.value + 1_000_000_000
    ensures var c' := Process(c, s).1;
            && c'.lastPrune == Some(s.at)
            && forall k <- c'.recent :: s.at < c'.recent[k] + 1_000_000_000
  {
  }

  lemma {:induction false} InjectionBounds(keys: set<Key>, f: map<Key, nat>, range: set<nat>)
    requires keys <= f.Keys && forall k <- keys :: f[k] in range
    requires forall k <- keys, l <- keys :: f[k] == f[l] ==> k == l
    ensures |keys| <= |range|
  {
    if keys != {} {
      var k :| k in keys;
      InjectionBounds(keys - {k}, f, range - {f[k]});
    }
  }

  lemma EntrySignal(h: seq<Signal>, k: Key) returns (j: nat)
    requires Chronological(h) && h != [] && CacheAccepts(h, |h| - 1) && k in CacheOf(h).recent
    ensures j < |h| && h[j].Key() == k && j in RecentlyAccepted(h)
  {
    CacheRepresents(h);
    EntriesAreRecent(h);
    j :| LastAccepted(h, k, j) && CacheOf(h).recent[k] == h[j].at;
    SweepingIsInvisible(h, j);
  }

  ghost predicate EntryIs(h: seq<Signal>, k: Key, j: nat)
    requires h != []
  {
    j in RecentlyAccepted(h) && h[j].Key() == k
  }

  /** So right after an accepted signal the cache is no larger than what was accepted in the last 2000 ms. */
  lemma CacheSizeBound(h: seq<Signal>)
    requires Chronological(h) && h != [] && CacheAccepts(h, |h| - 1)
    ensures |CacheOf(h).recent| <= |RecentlyAccepted(h)|
  {
    var c := CacheOf(h);
    forall k | k in c.recent ensures exists j: nat :: EntryIs(h, k, j) {
      var j := EntrySignal(h, k);
      assert EntryIs(h, k, j);
    }
    var signalOf := map k | k in c.recent :: var j: nat :| EntryIs(h, k, j); j;
    InjectionBounds(c.recent.Keys, signalOf, RecentlyAccepted(h));
  }
}
