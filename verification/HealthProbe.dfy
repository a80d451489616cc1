/**
 Hedged health probing: endpoints are tried in preference order, each with a head
 start before the next one is started alongside it; the first success wins.
 */
module HealthProbe {
  import opened Basics
  import opened HealthChecker

  const HEDGE_DELAY_MS: nat := 1500

  datatype Reply = Ok(latencyMs: nat, body: string) | Err(message: string)

  /** An endpoint and how its request would go if nothing cut it short. */
  datatype Request = Request(url: string, takesMs: nat, reply: Reply)

  /** The outer limit on one probe. */
  function LimitMs(timeoutSecs: nat): nat {
    (timeoutSecs + 2) * 1000
  }

  /** A probe reports when its request is done, or when the limit cuts it off. */
  function Delay(r: Request, timeoutSecs: nat): nat {
    if r.takesMs <= LimitMs(timeoutSecs) then r.takesMs else LimitMs(timeoutSecs)
  }

  function Outcome(r: Request, timeoutSecs: nat): Reply {
    if r.takesMs <= LimitMs(timeoutSecs) then r.reply else Err("timeout")
  }

  /** The request fails, or takes longer than the limit. */
  predicate Failed(r: Request, timeoutSecs: nat) {
    r.reply.Err? || r.takesMs > (timeoutSecs + 2) * 1000
  }

  function AcceptProbe(r: Request, timeoutSecs: nat): Option<EndpointHit> {
    match Outcome(r, timeoutSecs)
    case Ok(latency, body) => Some(EndpointHit(r.url, latency, body))
    case Err(_) => None
  }

  /** Receive from the channel: some in-flight probe that reports no later than the others. */
  method Earliest(pending: set<nat>, due: seq<nat>) returns (i: nat)
    requires pending != {} && forall p <- pending :: p < |due|
    ensures i in pending && forall p <- pending :: due[i] <= due[p]
  {
    i :| i in pending;
    var rest := pending - {i};
    while rest != {}
      invariant rest <= pending && i in pending
      invariant forall p <- pending - rest :: due[i] <= due[p]
    {
      var p :| p in rest;
      if due[p] < due[i] {
        i := p;
      }
      rest := rest - {p};
    }
  }

  /**
   One round in progress: the clock, the launch times so far, the probes not heard from,
   and which report, if any, ended each head start that is over.
   */
  datatype Round = Round(now: nat, launchedAt: seq<nat>, pending: set<nat>, enders: seq<Option<nat>>)

  /** When probe `i` reports. */
  function Due(q: seq<Request>, timeoutSecs: nat, launchedAt: seq<nat>, i: nat): nat
    requires i < |launchedAt| <= |q|
  {
    launchedAt[i] + Delay(q[i], timeoutSecs)
  }

  /**
   Launches are a prefix of the preference order, the first one at once, each of the
   others at most one head start after the one before it.
   */
  predicate LaunchesInOrder(q: seq<Request>, launchedAt: seq<nat>) {
    && |launchedAt| <= |q|
    && (launchedAt != [] ==> launchedAt[0] == 0)
    && (forall k :: 0 < k < |launchedAt| ==> launchedAt[k - 1] <= launchedAt[k] <= launchedAt[k - 1] + HEDGE_DELAY_MS)
  }

  /** Probe `w` delivered a success at `finishedAt`, and no launched probe did so earlier. */
  predicate FirstSuccess(q: seq<Request>, timeoutSecs: nat, launchedAt: seq<nat>, w: nat, finishedAt: nat) {
    && w < |launchedAt| <= |q| && Outcome(q[w], timeoutSecs).Ok?
    && finishedAt == Due(q, timeoutSecs, launchedAt, w)
    && (forall i :: 0 <= i < |launchedAt| && Outcome(q[i], timeoutSecs).Ok? ==> finishedAt <= Due(q, timeoutSecs, launchedAt, i))
  }

  /**
   The head start of probe `k` is over at time `end`: either it lasted its full time, or
   the failure of a launched probe was reported just then. A report due after its start
   is not passed over.
   */
  predicate EndsAt(q: seq<Request>, timeoutSecs: nat, launchedAt: seq<nat>, k: nat, ender: Option<nat>, end: nat)
    requires k < |launchedAt| <= |q|
  {
    && (match ender
        case None => end == launchedAt[k] + HEDGE_DELAY_MS
        case Some(i) =>
          i <= k && Failed(q[i], timeoutSecs) && Due(q, timeoutSecs, launchedAt, i) == end <= launchedAt[k] + HEDGE_DELAY_MS)
    && (forall i :: 0 <= i <= k && launchedAt[k] < Due(q, timeoutSecs, launchedAt, i) ==>
          end <= Due(q, timeoutSecs, launchedAt, i))
  }

  predicate DistinctEnders(enders: seq<Option<nat>>) {
    forall j, k :: 0 <= j < k < |enders| && enders[j].Some? ==> enders[j] != enders[k]
  }

  /** Every launch but the first happens when the head start before it is over, no two for the same report. */
  predicate Paced(q: seq<Request>, timeoutSecs: nat, launchedAt: seq<nat>, enders: seq<Option<nat>>) {
    && |launchedAt| <= |q| && |launchedAt| <= |enders| + 1 && DistinctEnders(enders)
    && forall k :: 0 < k < |launchedAt| ==> EndsAt(q, timeoutSecs, launchedAt, k - 1, enders[k - 1], launchedAt[k])
  }

  /** Endpoint 0 would answer within its head start. */
  predicate PromptFirst(q: seq<Request>, timeoutSecs: nat) {
    |q| > 0 && !Failed(q[0], timeoutSecs) && q[0].takesMs < 1500
  }

  function WorstCase(q: seq<Request>, timeoutSecs: nat): nat {
    (if |q| == 0 then 0 else (|q| - 1) * 1500) + (timeoutSecs + 2) * 1000
  }

  /** What holds between two turns of the loop. */
  predicate Valid(q: seq<Request>, timeoutSecs: nat, r: Round) {
    && LaunchesInOrder(q, r.launchedAt)
    && (forall p <- r.pending :: p < |r.launchedAt| && r.now <= Due(q, timeoutSecs, r.launchedAt, p))
    && (forall i :: 0 <= i < |r.launchedAt| && i !in r.pending ==> Outcome(q[i], timeoutSecs).Err?)
    && (if r.launchedAt == [] then r.now == 0
        else
          var last := r.launchedAt[|r.launchedAt| - 1];
          && last <= r.now && last <= (|r.launchedAt| - 1) * HEDGE_DELAY_MS
          && (|r.launchedAt| < |q| ==> r.now <= last + HEDGE_DELAY_MS)
          && !PromptFirst(q, timeoutSecs))
    && (r.now <= WorstCase(q, timeoutSecs))
  }

  /** What holds between two turns about the head starts. */
  ghost predicate Timed(q: seq<Request>, timeoutSecs: nat, r: Round) {
    && Waited(q, timeoutSecs, r)
    && (r.launchedAt == [] ==> r.enders == [])
    && (r.launchedAt != [] && |r.launchedAt| < |q| ==>
          && |r.enders| == |r.launchedAt|
          && EndsAt(q, timeoutSecs, r.launchedAt, |r.launchedAt| - 1, r.enders[|r.launchedAt| - 1], r.now))
    && (r.pending == {} && r.launchedAt != [] ==> exists i :: ReportsAt(q, timeoutSecs, r.launchedAt, i, r.now))
  }

  predicate ReportsAt(q: seq<Request>, timeoutSecs: nat, launchedAt: seq<nat>, i: int, at: nat) {
    0 <= i < |launchedAt| <= |q| && Due(q, timeoutSecs, launchedAt, i) == at
  }

  /** The same while the loop waits for a report. */
  predicate Waited(q: seq<Request>, timeoutSecs: nat, r: Round) {
    && Paced(q, timeoutSecs, r.launchedAt, r.enders) && Heard(q, timeoutSecs, r)
    && (r.launchedAt != [] ==> r.launchedAt[|r.launchedAt| - 1] <= r.now)
  }

  /** What holds while the loop waits for a report. */
  predicate Listening(q: seq<Request>, timeoutSecs: nat, r: Round) {
    && r.launchedAt != [] && LaunchesInOrder(q, r.launchedAt)
    && (forall p <- r.pending :: p < |r.launchedAt| && r.now <= Due(q, timeoutSecs, r.launchedAt, p))
    && (forall i :: 0 <= i < |r.launchedAt| && i !in r.pending ==> Outcome(q[i], timeoutSecs).Err?)
    && r.launchedAt[|r.launchedAt| - 1] <= r.now
    && (PromptFirst(q, timeoutSecs) ==> |r.launchedAt| == 1)
  }

  /** Probe `next` is the next to report, within the current head start if there is one. */
  predicate IsNext(q: seq<Request>, timeoutSecs: nat, r: Round, next: nat)
    requires Listening(q, timeoutSecs, r)
  {
    && next in r.pending
    && (forall p <- r.pending :: Due(q, timeoutSecs, r.launchedAt, next) <= Due(q, timeoutSecs, r.launchedAt, p))
    && (|r.launchedAt| < |q| ==>
          Due(q, timeoutSecs, r.launchedAt, next) <= r.launchedAt[|r.launchedAt| - 1] + HEDGE_DELAY_MS)
  }

  function Launched(r: Round): Round {
    Round(r.now, r.launchedAt + [r.now], r.pending + {|r.launchedAt|}, r.enders)
  }

  lemma {:induction false} LaunchTimeBound(q: seq<Request>, launchedAt: seq<nat>, i: nat)
    requires LaunchesInOrder(q, launchedAt) && i < |launchedAt|
    ensures launchedAt[i] <= i * HEDGE_DELAY_MS
  {
    if i > 0 {
      LaunchTimeBound(q, launchedAt, i - 1);
    }
  }

  lemma LaunchedListening(q: seq<Request>, timeoutSecs: nat, r: Round)
    requires Valid(q, timeoutSecs, r) && |r.launchedAt| < |q|
    ensures Listening(q, timeoutSecs, Launched(r))
  {
    var l := Launched(r);
    forall p | p in l.pending ensures p < |l.launchedAt| && r.now <= l.launchedAt[p] + Delay(q[p], timeoutSecs) {
      if p < |r.launchedAt| {
        assert r.now <= Due(q, timeoutSecs, r.launchedAt, p);
      }
    }
  }

  /** Every probe reports before the worst case, so the clock never passes it. */
  lemma DueBound(q: seq<Request>, timeoutSecs: nat, launchedAt: seq<nat>, i: nat)
    requires LaunchesInOrder(q, launchedAt) && i < |launchedAt|
    ensures Due(q, timeoutSecs, launchedAt, i) <= WorstCase(q, timeoutSecs)
  {
    LaunchTimeBound(q, launchedAt, i);
  }

  /** The head start ran out: nobody was due before its end. */
  lemma HedgeKeeps(q: seq<Request>, timeoutSecs: nat, r: Round)
    requires Valid(q, timeoutSecs, r) && |r.launchedAt| < |q|
    requires forall p <- Launched(r).pending :: r.now + HEDGE_DELAY_MS <= Due(q, timeoutSecs, Launched(r).launchedAt, p)
    ensures Valid(q, timeoutSecs, Launched(r).(now := r.now + HEDGE_DELAY_MS, enders := r.enders + [None]))
  {
    var l := Launched(r);
    LaunchedListening(q, timeoutSecs, r);
    LaunchTimeBound(q, l.launchedAt, |r.launchedAt|);
    assert r.launchedAt == [] ==> 0 in l.pending;
  }

  /** A failed report, received while the round is `r` (just launched or draining). */
  lemma FailureKeeps(q: seq<Request>, timeoutSecs: nat, r: Round, next: nat, enders: seq<Option<nat>>)
    requires Listening(q, timeoutSecs, r) && IsNext(q, timeoutSecs, r, next)
    requires Outcome(q[next], timeoutSecs).Err?
    ensures Valid(q, timeoutSecs, Round(Due(q, timeoutSecs, r.launchedAt, next), r.launchedAt, r.pending - {next}, enders))
  {
    DueBound(q, timeoutSecs, r.launchedAt, next);
    LaunchTimeBound(q, r.launchedAt, |r.launchedAt| - 1);
  }

  lemma SameDue(q: seq<Request>, timeoutSecs: nat, launchedAt: seq<nat>, more: seq<nat>, i: nat)
    requires i < |launchedAt| && |launchedAt + more| <= |q|
    ensures Due(q, timeoutSecs, launchedAt + more, i) == Due(q, timeoutSecs, launchedAt, i)
  {
  }

  /** A launch at the end of a head start keeps the pace. */
  lemma LaunchPaced(q: seq<Request>, timeoutSecs: nat, r: Round)
    requires Timed(q, timeoutSecs, r) && |r.launchedAt| < |q|
    ensures Paced(q, timeoutSecs, Launched(r).launchedAt, r.enders)
  {
    var l, at := Launched(r), r.launchedAt;
    forall k | 0 < k < |l.launchedAt|
      ensures EndsAt(q, timeoutSecs, l.launchedAt, k - 1, r.enders[k - 1], l.launchedAt[k])
    {
      assert l.launchedAt[k - 1] == at[k - 1];
      forall i | 0 <= i < |at| ensures Due(q, timeoutSecs, l.launchedAt, i) == Due(q, timeoutSecs, at, i) {
        SameDue(q, timeoutSecs, at, [r.now], i);
      }
      assert EndsAt(q, timeoutSecs, at, k - 1, r.enders[k - 1], if k < |at| then at[k] else r.now);
    }
  }

  /** The facts about reports heard so far. */
  predicate Heard(q: seq<Request>, timeoutSecs: nat, r: Round) {
    && |r.launchedAt| <= |q|
    && (forall k :: 0 <= k < |r.enders| && r.enders[k].Some? ==>
          r.enders[k].value < |r.launchedAt| && r.enders[k].value !in r.pending)
    && (forall i :: 0 <= i < |r.launchedAt| && i !in r.pending ==> Due(q, timeoutSecs, r.launchedAt, i) <= r.now)
  }

  lemma LaunchHeard(q: seq<Request>, timeoutSecs: nat, r: Round)
    requires Heard(q, timeoutSecs, r) && |r.launchedAt| < |q|
    ensures Heard(q, timeoutSecs, Launched(r))
  {
    var l := Launched(r);
    forall i | 0 <= i < |l.launchedAt| && i !in l.pending ensures Due(q, timeoutSecs, l.launchedAt, i) <= l.now {
      assert i < |r.launchedAt| && i !in r.pending;
      SameDue(q, timeoutSecs, r.launchedAt, [r.now], i);
    }
  }

  lemma LaunchWaited(q: seq<Request>, timeoutSecs: nat, r: Round)
    requires Timed(q, timeoutSecs, r) && |r.launchedAt| < |q|
    ensures Waited(q, timeoutSecs, Launched(r)) && |Launched(r).launchedAt| == |r.enders| + 1
  {
    LaunchPaced(q, timeoutSecs, r);
    LaunchHeard(q, timeoutSecs, r);
  }

  /** One more head start is over. */
  lemma EnderAdded(q: seq<Request>, timeoutSecs: nat, r: Round, ender: Option<nat>)
    requires Paced(q, timeoutSecs, r.launchedAt, r.enders) && |r.launchedAt| == |r.enders| + 1
    requires forall k :: 0 <= k < |r.enders| && r.enders[k].Some? ==> r.enders[k].value !in r.pending
    requires ender.Some? ==> ender.value in r.pending
    ensures Paced(q, timeoutSecs, r.launchedAt, r.enders + [ender])
  {
    var e := r.enders + [ender];
    forall j, k | 0 <= j < k < |e| && e[j].Some? ensures e[j] != e[k] {
      assert e[j] == r.enders[j];
    }
  }

  lemma HedgeTimed(q: seq<Request>, timeoutSecs: nat, l: Round)
    requires Waited(q, timeoutSecs, l) && |l.launchedAt| == |l.enders| + 1 && l.pending != {}
    requires l.launchedAt[|l.launchedAt| - 1] == l.now
    requires forall p <- l.pending :: p < |l.launchedAt| && l.now + HEDGE_DELAY_MS <= Due(q, timeoutSecs, l.launchedAt, p)
    ensures Timed(q, timeoutSecs, l.(now := l.now + HEDGE_DELAY_MS, enders := l.enders + [None]))
  {
    EnderAdded(q, timeoutSecs, l, None);
  }

  /** A failure heard within a head start ends it, and nothing due after its start was passed over. */
  lemma FailureEnds(q: seq<Request>, timeoutSecs: nat, r: Round, next: nat)
    requires Listening(q, timeoutSecs, r) && Heard(q, timeoutSecs, r) && IsNext(q, timeoutSecs, r, next)
    requires Failed(q[next], timeoutSecs) && r.now == r.launchedAt[|r.launchedAt| - 1]
    requires Due(q, timeoutSecs, r.launchedAt, next) <= r.now + HEDGE_DELAY_MS
    ensures EndsAt(q, timeoutSecs, r.launchedAt, |r.launchedAt| - 1, Some(next), Due(q, timeoutSecs, r.launchedAt, next))
  {
  }

  lemma ReceivedHeard(q: seq<Request>, timeoutSecs: nat, r: Round, next: nat, inHeadStart: bool)
    requires Listening(q, timeoutSecs, r) && Heard(q, timeoutSecs, r) && IsNext(q, timeoutSecs, r, next)
    ensures Heard(q, timeoutSecs, Received(q, timeoutSecs, r, next, inHeadStart))
  {
  }

  /** A failure was received: in a head start it ends that head start. */
  lemma FailureTimed(q: seq<Request>, timeoutSecs: nat, r: Round, next: nat, inHeadStart: bool)
    requires Listening(q, timeoutSecs, r) && Waited(q, timeoutSecs, r) && IsNext(q, timeoutSecs, r, next)
    requires Failed(q[next], timeoutSecs)
    requires if inHeadStart then
               && |r.launchedAt| == |r.enders| + 1 && r.now == r.launchedAt[|r.launchedAt| - 1]
               && Due(q, timeoutSecs, r.launchedAt, next) <= r.now + HEDGE_DELAY_MS
             else |r.launchedAt| == |q|
    ensures Timed(q, timeoutSecs, Received(q, timeoutSecs, r, next, inHeadStart))
  {
    ReceivedHeard(q, timeoutSecs, r, next, inHeadStart);
    if inHeadStart {
      EnderAdded(q, timeoutSecs, r, Some(next));
      FailureEnds(q, timeoutSecs, r, next);
    }
    assert ReportsAt(q, timeoutSecs, r.launchedAt, next, Due(q, timeoutSecs, r.launchedAt, next));
  }

  /** The round after the report of probe `next`. */
  function Received(q: seq<Request>, timeoutSecs: nat, r: Round, next: nat, inHeadStart: bool): Round
    requires next < |r.launchedAt| <= |q|
  {
    Round(Due(q, timeoutSecs, r.launchedAt, next), r.launchedAt, r.pending - {next},
          if inHeadStart then r.enders + [Some(next)] else r.enders)
  }

  /** A success received in round `r`: the round is over, and every promise holds. */
  predicate Won(q: seq<Request>, timeoutSecs: nat, r: Round, w: nat) {
    && LaunchesInOrder(q, r.launchedAt)
    && Paced(q, timeoutSecs, r.launchedAt, r.enders)
    && FirstSuccess(q, timeoutSecs, r.launchedAt, w, r.now)
    && r.now <= WorstCase(q, timeoutSecs)
    && r.launchedAt[|r.launchedAt| - 1] <= r.now
    && (|r.launchedAt| < |q| ==> r.now <= r.launchedAt[|r.launchedAt| - 1] + HEDGE_DELAY_MS)
    && (PromptFirst(q, timeoutSecs) ==> |r.launchedAt| == 1 && w == 0)
  }

  /** The next report, if it is a success, is the earliest success of all launched probes. */
  lemma NextWins(q: seq<Request>, timeoutSecs: nat, r: Round, next: nat)
    requires Listening(q, timeoutSecs, r) && IsNext(q, timeoutSecs, r, next) && Outcome(q[next], timeoutSecs).Ok?
    ensures FirstSuccess(q, timeoutSecs, r.launchedAt, next, Due(q, timeoutSecs, r.launchedAt, next))
    ensures PromptFirst(q, timeoutSecs) ==> next == 0
  {
  }

  lemma ReceivedPaced(q: seq<Request>, timeoutSecs: nat, r: Round, next: nat, inHeadStart: bool)
    requires Waited(q, timeoutSecs, r) && next < |r.launchedAt| && next in r.pending
    requires inHeadStart ==> |r.launchedAt| == |r.enders| + 1
    ensures Paced(q, timeoutSecs, r.launchedAt, Received(q, timeoutSecs, r, next, inHeadStart).enders)
  {
    if inHeadStart {
      EnderAdded(q, timeoutSecs, r, Some(next));
    }
  }

  lemma NextBounds(q: seq<Request>, timeoutSecs: nat, r: Round, next: nat)
    requires Listening(q, timeoutSecs, r) && IsNext(q, timeoutSecs, r, next)
    ensures var now, last := Due(q, timeoutSecs, r.launchedAt, next), r.launchedAt[|r.launchedAt| - 1];
            last <= now <= WorstCase(q, timeoutSecs) && (|r.launchedAt| < |q| ==> now <= last + HEDGE_DELAY_MS)
  {
    DueBound(q, timeoutSecs, r.launchedAt, next);
  }

  /** Take the next report; `won` names its probe when it was a success. */
  method Receive(q: seq<Request>, timeoutSecs: nat, r: Round, next: nat, inHeadStart: bool) returns (r': Round, won: Option<nat>)
    requires Listening(q, timeoutSecs, r) && Waited(q, timeoutSecs, r) && IsNext(q, timeoutSecs, r, next)
    requires if inHeadStart then
               && |r.launchedAt| == |r.enders| + 1 && r.now == r.launchedAt[|r.launchedAt| - 1]
               && Due(q, timeoutSecs, r.launchedAt, next) <= r.now + HEDGE_DELAY_MS
             else |r.launchedAt| == |q|
    ensures r' == Received(q, timeoutSecs, r, next, inHeadStart)
    ensures won.Some? ==> Won(q, timeoutSecs, r', won.value)
    ensures won.None? ==> Valid(q, timeoutSecs, r') && Timed(q, timeoutSecs, r')
  {
    r' := Received(q, timeoutSecs, r, next, inHeadStart);
    if AcceptProbe(q[next], timeoutSecs).Some? {
      ReceivedPaced(q, timeoutSecs, r, next, inHeadStart);
      NextBounds(q, timeoutSecs, r, next);
      NextWins(q, timeoutSecs, r, next);
      return r', Some(next);
    }
    FailureKeeps(q, timeoutSecs, r, next, r'.enders);
    FailureTimed(q, timeoutSecs, r, next, inHeadStart);
    return r', None;
  }

  /** Wait for a report for the length of a head start that begins now. */
  method HeadStart(q: seq<Request>, timeoutSecs: nat, l: Round) returns (next: nat, heard: bool)
    requires Listening(q, timeoutSecs, l) && l.pending != {} && l.now == l.launchedAt[|l.launchedAt| - 1]
    ensures heard ==> IsNext(q, timeoutSecs, l, next) && Due(q, timeoutSecs, l.launchedAt, next) <= l.now + HEDGE_DELAY_MS
    ensures !heard ==> forall p <- l.pending :: l.now + HEDGE_DELAY_MS <= Due(q, timeoutSecs, l.launchedAt, p)
  {
    var due := seq(|l.launchedAt|, i requires 0 <= i < |l.launchedAt| => Due(q, timeoutSecs, l.launchedAt, i));
    next := Earliest(l.pending, due);
    var seen: bool := *;
    heard := due[next] < l.now + HEDGE_DELAY_MS || (due[next] == l.now + HEDGE_DELAY_MS && seen);
  }

  /** Start the next endpoint and give it its head start. */
  method LaunchTurn(q: seq<Request>, timeoutSecs: nat, r: Round) returns (r': Round, won: Option<nat>)
    requires Valid(q, timeoutSecs, r) && Timed(q, timeoutSecs, r) && |r.launchedAt| < |q|
    ensures won.Some? ==> Won(q, timeoutSecs, r', won.value)
    ensures won.None? ==> Valid(q, timeoutSecs, r') && Timed(q, timeoutSecs, r')
    ensures r'.launchedAt == r.launchedAt + [r.now] && |r'.pending| <= |r.pending| + 1
  {
    var l := Launched(r);
    LaunchedListening(q, timeoutSecs, r);
    LaunchWaited(q, timeoutSecs, r);
    assert |r.launchedAt| in l.pending;
    var next, heard := HeadStart(q, timeoutSecs, l);
    if heard {
      r', won := Receive(q, timeoutSecs, l, next, true);
    } else {
      HedgeKeeps(q, timeoutSecs, r);
      HedgeTimed(q, timeoutSecs, l);
      return l.(now := r.now + HEDGE_DELAY_MS, enders := r.enders + [None]), None;
    }
  }

  lemma DrainListening(q: seq<Request>, timeoutSecs: nat, r: Round)
    requires Valid(q, timeoutSecs, r) && |r.launchedAt| == |q| && r.pending != {}
    ensures Listening(q, timeoutSecs, r)
  {
  }

  method NextReport(q: seq<Request>, timeoutSecs: nat, r: Round) returns (next: nat)
    requires Listening(q, timeoutSecs, r) && r.pending != {} && |r.launchedAt| == |q|
    ensures IsNext(q, timeoutSecs, r, next)
  {
    var due := seq(|r.launchedAt|, i requires 0 <= i < |r.launchedAt| => Due(q, timeoutSecs, r.launchedAt, i));
    next := Earliest(r.pending, due);
  }

  /** Nothing left to start: wait for the next report. */
  method DrainTurn(q: seq<Request>, timeoutSecs: nat, r: Round) returns (r': Round, won: Option<nat>)
    requires Valid(q, timeoutSecs, r) && Timed(q, timeoutSecs, r) && |r.launchedAt| == |q| && r.pending != {}
    ensures won.Some? ==> Won(q, timeoutSecs, r', won.value)
    ensures won.None? ==> Valid(q, timeoutSecs, r') && Timed(q, timeoutSecs, r')
    ensures r'.launchedAt == r.launchedAt && |r'.pending| == |r.pending| - 1
  {
    DrainListening(q, timeoutSecs, r);
    var next := NextReport(q, timeoutSecs, r);
    r', won := Receive(q, timeoutSecs, r, next, false);
  }

  /** The last launch is not later than the end. */
  predicate LaunchedBy(launchedAt: seq<nat>, end: nat) {
    launchedAt != [] ==> launchedAt[|launchedAt| - 1] <= end
  }

  lemma OutcomeIs(r: Request, timeoutSecs: nat)
    ensures Outcome(r, timeoutSecs).Err? <==> Failed(r, timeoutSecs)
    ensures !Failed(r, timeoutSecs) ==> AcceptProbe(r, timeoutSecs) == Some(EndpointHit(r.url, r.reply.latencyMs, r.reply.body))
    ensures !Failed(r, timeoutSecs) ==> Delay(r, timeoutSecs) == r.takesMs
  {
  }

  /** The round of an endless wait: all endpoints started, all failed, the last report just in. */
  ghost predicate Lost(q: seq<Request>, timeoutSecs: nat, launchedAt: seq<nat>, finishedAt: nat) {
    && |launchedAt| == |q|
    && (forall i :: 0 <= i < |q| ==> Failed(q[i], timeoutSecs) && Due(q, timeoutSecs, launchedAt, i) <= finishedAt)
    && (if q == [] then finishedAt == 0 else exists i :: ReportsAt(q, timeoutSecs, launchedAt, i, finishedAt))
  }

  lemma RoundLost(q: seq<Request>, timeoutSecs: nat, r: Round)
    requires Valid(q, timeoutSecs, r) && Timed(q, timeoutSecs, r) && |r.launchedAt| == |q| && r.pending == {}
    ensures Lost(q, timeoutSecs, r.launchedAt, r.now)
    ensures !PromptFirst(q, timeoutSecs)
  {
    forall i | 0 <= i < |q| ensures Failed(q[i], timeoutSecs) {
      OutcomeIs(q[i], timeoutSecs);
    }
  }

  /** The hit a winner gives, read off its request. */
  predicate IsHit(q: seq<Request>, timeoutSecs: nat, launchedAt: seq<nat>, w: nat, finishedAt: nat, hit: EndpointHit) {
    && w < |launchedAt| <= |q| && !Failed(q[w], timeoutSecs)
    && finishedAt == launchedAt[w] + q[w].takesMs
    && hit == EndpointHit(q[w].url, q[w].reply.latencyMs, q[w].reply.body)
    && (|launchedAt| < |q| ==> finishedAt <= launchedAt[|launchedAt| - 1] + HEDGE_DELAY_MS)
  }

  lemma RoundWon(q: seq<Request>, timeoutSecs: nat, r: Round, w: nat)
    requires Won(q, timeoutSecs, r, w)
    ensures AcceptProbe(q[w], timeoutSecs).Some?
    ensures IsHit(q, timeoutSecs, r.launchedAt, w, r.now, AcceptProbe(q[w], timeoutSecs).value)
  {
    OutcomeIs(q[w], timeoutSecs);
  }

  /**
   Probe the endpoints and report when each one was launched, what ended each head start,
   which probe won, and when the loop ended. A report that falls exactly on the end of a
   head start may be seen on either side of it, and simultaneous reports come in any order.
   */
  method RunProbe(q: seq<Request>, timeoutSecs: nat)
    returns (hit: Option<EndpointHit>, launchedAt: seq<nat>, enders: seq<Option<nat>>, winner: Option<nat>, finishedAt: nat)
    ensures LaunchesInOrder(q, launchedAt) && LaunchedBy(launchedAt, finishedAt)
    // an endpoint is started before the full head start only for a failure reported just then, each for another one
    ensures Paced(q, timeoutSecs, launchedAt, enders)
    // no hit exactly when every endpoint was tried and failed, and then the round lasts until the last report
    ensures hit.None? <==> forall i :: 0 <= i < |q| ==> Failed(q[i], timeoutSecs)
    ensures hit.None? ==> Lost(q, timeoutSecs, launchedAt, finishedAt) && winner.None?
    // a hit is a delivered success, the earliest one of all launched probes; whoever was not started still had to wait
    ensures hit.Some? ==>
              && winner.Some? && FirstSuccess(q, timeoutSecs, launchedAt, winner.value, finishedAt)
              && IsHit(q, timeoutSecs, launchedAt, winner.value, finishedAt, hit.value)
    // an endpoint that answers within its head start is the only one contacted
    ensures PromptFirst(q, timeoutSecs) ==> |launchedAt| == 1 && winner == Some(0)
    // the whole round takes about one timeout, not one per endpoint
    ensures finishedAt <= WorstCase(q, timeoutSecs)
  {
    var r, won := Round(0, [], {}, []), None;
    while |r.launchedAt| < |q| || r.pending != {}
      invariant Valid(q, timeoutSecs, r) && Timed(q, timeoutSecs, r)
      decreases 2 * (|q| - |r.launchedAt|) + |r.pending|
    {
      if |r.launchedAt| < |q| {
        r, won := LaunchTurn(q, timeoutSecs, r);
      } else {
        r, won := DrainTurn(q, timeoutSecs, r);
      }
      if won.Some? {
        RoundWon(q, timeoutSecs, r, won.value);
        return AcceptProbe(q[won.value], timeoutSecs), r.launchedAt, r.enders, won, r.now;
      }
    }
    RoundLost(q, timeoutSecs, r);
    return None, r.launchedAt, r.enders, None, r.now;
  }
}
