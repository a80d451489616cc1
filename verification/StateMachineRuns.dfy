/**
 Whole runs of the state machine: the exact set of reachable machines, what two
 differently configured machines always agree on, the exact retry budget, and
 what setting the state from outside does to all of that.
 */
module StateMachineRuns {
  import opened Basics
  import opened VpnTypes
  import opened StateMachine

  /** A run mixes events with states forced by the supervisor. */
  datatype Step = Ev(event: Event) | Force(target: VpnState)

  function Apply(m: Machine, s: Step): Machine {
    match s
    case Ev(e) => Handle(m, e)
    case Force(t) => Forced(m, t)
  }

  function Run(m: Machine, steps: seq<Step>): (r: Machine)
    ensures r.max == m.max
    decreases |steps|
  {
    if steps == [] then m else Run(Apply(m, steps[0]), steps[1..])
  }

  /** The only state ever forced is `Disconnected`. */
  predicate Disciplined(steps: seq<Step>) {
    forall i :: 0 <= i < |steps| && steps[i].Force? ==> steps[i].target.Disconnected?
  }

  lemma {:induction false} RunConcat(m: Machine, a: seq<Step>, b: seq<Step>)
    ensures Run(m, a + b) == Run(Run(m, a), b)
    decreases |a|
  {
    if a == [] {
      assert a + b == b;
    } else {
      assert (a + b)[0] == a[0] && (a + b)[1..] == a[1..] + b;
      RunConcat(Apply(m, a[0]), a[1..], b);
    }
  }

  lemma RunOne(m: Machine, s: Step)
    ensures Run(m, [s]) == Apply(m, s)
  {
    assert [s][1..] == [];
  }

  lemma RunTwo(m: Machine, s: Step, t: Step)
    ensures Run(m, [s, t]) == Apply(Apply(m, s), t)
  {
    assert [s, t][1..] == [t];
    RunOne(Apply(m, s), t);
  }

  // ---------------------------------------------------------------------
  // The reachable machines, exactly
  // ---------------------------------------------------------------------

  /** What the counter and the state say about each other. */
  predicate Consistent(m: Machine) {
    match m.state
    case Disconnected => m.retries == 0
    case Connecting(_) => m.retries == 0
    case Connected(_) => m.retries == 0
    case Degraded(_) => m.retries == 0
    case Reconnecting(_, attempt, maxAttempts) =>
      attempt == m.retries && maxAttempts == m.max && m.retries >= 1 && (m.retries < m.max || m.retries == 1)
    case Failed(_, reason) =>
      || (reason in {TIMEOUT_TEXT, FAILURE_TEXT} && m.max <= 1 && m.retries == 1)
      || (reason == GaveUpText(m.max) && m.retries == Max(m.max, 2))
  }

  lemma ApplyKeepsConsistent(m: Machine, s: Step)
    requires Consistent(m) && Disciplined([s])
    ensures Consistent(Apply(m, s))
  {
    assert [s][0] == s;
  }

  lemma {:induction false} RunKeepsConsistent(m: Machine, steps: seq<Step>)
    requires Consistent(m) && Disciplined(steps)
    ensures Consistent(Run(m, steps))
    decreases |steps|
  {
    if steps != [] {
      ApplyKeepsConsistent(m, steps[0]);
      RunKeepsConsistent(Apply(m, steps[0]), steps[1..]);
    }
  }

  function Timeouts(n: nat): (s: seq<Step>)
    ensures |s| == n && forall i :: 0 <= i < n ==> s[i] == Ev(Event.Timeout)
  {
    seq(n, _ => Ev(Event.Timeout))
  }

  /** A run from a fresh machine that ends in `m`. */
  function PathTo(m: Machine): seq<Step> {
    match m.state
    case Disconnected => []
    case Connecting(s) => [Ev(UserEnable(s))]
    case Connected(s) => [Ev(NmVpnUp(s))]
    case Degraded(s) => [Ev(NmVpnUp(s)), Ev(HealthDegraded)]
    case Reconnecting(s, _, _) => [Ev(NmVpnUp(s)), Ev(NmVpnDown)] + Timeouts(if m.retries == 0 then 0 else m.retries - 1)
    case Failed(s, reason) =>
      if reason == GaveUpText(m.max) && m.retries == Max(m.max, 2) then
        [Ev(NmVpnUp(s)), Ev(NmVpnDown)] + Timeouts(Max(m.max, 2) - 1)
      else if reason == TIMEOUT_TEXT then [Ev(UserEnable(s)), Ev(Event.Timeout)]
      else [Ev(UserEnable(s)), Ev(NmVpnDown)]
  }

  lemma DropThenTimeouts(s: string, max: U32, n: nat)
    ensures Run(Fresh(max), [Ev(NmVpnUp(s)), Ev(NmVpnDown)] + Timeouts(n))
            == AfterTimeouts(Machine(Reconnecting(s, 1, max), 1, max), n)
  {
    RunConcat(Fresh(max), [Ev(NmVpnUp(s)), Ev(NmVpnDown)], Timeouts(n));
    RunTwo(Fresh(max), Ev(NmVpnUp(s)), Ev(NmVpnDown));
    TimeoutsOnly(Machine(Reconnecting(s, 1, max), 1, max), n);
    BudgetClosedForm(Machine(Reconnecting(s, 1, max), 1, max), Timeouts(n));
    TimeoutCount(n);
  }

  lemma PathReachesFailed(m: Machine)
    requires Consistent(m) && m.state.Failed?
    ensures Disciplined(PathTo(m)) && Run(Fresh(m.max), PathTo(m)) == m
  {
    var s, reason := m.state.server, m.state.reason;
    if reason == GaveUpText(m.max) && m.retries == Max(m.max, 2) {
      DropThenTimeouts(s, m.max, Max(m.max, 2) - 1);
    } else if reason == TIMEOUT_TEXT {
      RunTwo(Fresh(m.max), Ev(UserEnable(s)), Ev(Event.Timeout));
    } else {
      RunTwo(Fresh(m.max), Ev(UserEnable(s)), Ev(NmVpnDown));
    }
  }

  lemma PathReaches(m: Machine)
    requires Consistent(m)
    ensures Disciplined(PathTo(m)) && Run(Fresh(m.max), PathTo(m)) == m
  {
    match m.state
    case Disconnected =>
    case Connecting(s) => RunOne(Fresh(m.max), Ev(UserEnable(s)));
    case Connected(s) => RunOne(Fresh(m.max), Ev(NmVpnUp(s)));
    case Degraded(s) => RunTwo(Fresh(m.max), Ev(NmVpnUp(s)), Ev(HealthDegraded));
    case Reconnecting(s, _, _) => DropThenTimeouts(s, m.max, m.retries - 1);
    case Failed(_, _) => PathReachesFailed(m);
  }

  /**
   `Consistent` is not just kept by every run: it describes the reachable
   machines exactly, for every value of `max_retries`.
   */
  lemma ReachableIffConsistent(m: Machine)
    ensures Consistent(m) <==> exists steps :: Disciplined(steps) && Run(Fresh(m.max), steps) == m
  {
    if Consistent(m) {
      PathReaches(m);
    }
    forall steps | Disciplined(steps) && Run(Fresh(m.max), steps) == m
      ensures Consistent(m)
    {
      RunKeepsConsistent(Fresh(m.max), steps);
    }
  }

  /** The bounds the fuzz harness samples, and no overflow of the 32-bit counter. */
  lemma CounterBounds(m: Machine)
    requires Consistent(m)
    ensures m.retries <= Max(m.max, 2)
    ensures m.state.Failed? ==> Max(1, m.max) <= m.retries && m.state.reason != ""
    ensures m.state.IsBusy() ==> m.retries + 1 < U32_MODULUS
  {
    if m.state.Failed? {
      assert m.state.reason[0] in {'C', 'M'};
    }
  }

  /**
   What the counter alone says: like `Consistent`, but a failed machine may give any
   reason, as long as its counter reached the limit it reports.
   */
  predicate Counted(m: Machine) {
    match m.state
    case Reconnecting(_, _, _) => Consistent(m)
    case Failed(_, reason) => reason != "" && Max(1, m.max) <= m.retries <= Max(m.max, 2)
    case _ => m.retries == 0
  }

  lemma ConsistentIsCounted(m: Machine)
    requires Consistent(m)
    ensures Counted(m)
  {
    CounterBounds(m);
  }

  /** When a step keeps the counter facts: every event does, and a forced state that fits the counter. */
  predicate Fits(m: Machine, s: Step) {
    match s
    case Ev(_) => true
    case Force(Disconnected) => true
    case Force(Reconnecting(_, attempt, x)) =>
      attempt == m.retries && x == m.max && attempt >= 1 && (attempt < m.max || attempt == 1)
    case Force(Failed(_, reason)) => reason != "" && Max(1, m.max) <= m.retries
    case Force(_) => m.retries == 0
  }

  lemma FailureTexts(max: nat)
    ensures TIMEOUT_TEXT != "" && FAILURE_TEXT != "" && GaveUpText(max) != ""
  {
    assert GaveUpText(max)[0] == 'M' && TIMEOUT_TEXT[0] == 'C' && FAILURE_TEXT[0] == 'C';
  }

  lemma CountedIffFits(m: Machine, s: Step)
    requires Counted(m)
    ensures Counted(Apply(m, s)) <==> Fits(m, s)
  {
    FailureTexts(m.max);
  }

  /** Which server is on display after an event, without looking at the rules. */
  lemma ServerShown(m: Machine, e: Event)
    ensures var before, after := m.state.ServerName(), Handle(m, e).state.ServerName();
            match e
            case UserDisable => after == None
            case UserEnable(s) => after == if m.state.Disconnected? || m.state.Failed? then Some(s) else before
            case NmVpnUp(s) => after == if m.state.IsUp() then before else Some(s)
            case NmVpnChanged(s) => after == if m.state.Connected? then Some(s) else before
            case ConnectionFailed(_) => after == if m.state.IsBusy() then None else before
            case _ => after == before
  {
  }

  // ---------------------------------------------------------------------
  // Being up does not depend on the retry configuration
  // ---------------------------------------------------------------------

  /** The part of the state that says whether, and through what, a tunnel is up. */
  datatype Link = Down | Up(server: string, healthy: bool)

  function LinkOf(s: VpnState): Link {
    match s
    case Connected(x) => Up(x, true)
    case Degraded(x) => Up(x, false)
    case _ => Down
  }

  /** A reference automaton with neither a counter nor a retry limit. */
  function LinkStep(l: Link, s: Step): Link {
    match s
    case Force(t) => LinkOf(t)
    case Ev(e) =>
      match (l, e)
      case (_, UserDisable) => Down
      case (_, NmVpnDown) => Down
      case (Down, NmVpnUp(x)) => Up(x, true)
      case (Up(_, true), NmVpnChanged(x)) => Up(x, true)
      case (Up(x, _), HealthDegraded) => Up(x, false)
      case (Up(x, _), HealthOk) => Up(x, true)
      case (Up(_, false), HealthDead) => Down
      case _ => l
  }

  function LinkRun(l: Link, steps: seq<Step>): Link
    decreases |steps|
  {
    if steps == [] then l else LinkRun(LinkStep(l, steps[0]), steps[1..])
  }

  /** The link of a machine follows the reference automaton through every run. */
  lemma {:induction false} LinkRefines(m: Machine, steps: seq<Step>)
    ensures LinkOf(Run(m, steps).state) == LinkRun(LinkOf(m.state), steps)
    decreases |steps|
  {
    if steps != [] {
      LinkRefines(Apply(m, steps[0]), steps[1..]);
    }
  }

  /** Two machines with any two retry limits agree on the link after every step. */
  lemma SameLinkForAllLimits(max1: U32, max2: U32, steps: seq<Step>, n: nat)
    requires n <= |steps|
    ensures LinkOf(Run(Fresh(max1), steps[..n]).state) == LinkOf(Run(Fresh(max2), steps[..n]).state)
  {
    LinkRefines(Fresh(max1), steps[..n]);
    LinkRefines(Fresh(max2), steps[..n]);
  }

  // ---------------------------------------------------------------------
  // The retry budget
  // ---------------------------------------------------------------------

  function CountTimeouts(steps: seq<Step>): nat {
    if steps == [] then 0
    else (if steps[0] == Ev(Event.Timeout) then 1 else 0) + CountTimeouts(steps[1..])
  }

  lemma {:induction false} TimeoutCount(n: nat)
    ensures CountTimeouts(Timeouts(n)) == n
  {
    if n > 0 {
      assert Timeouts(n)[1..] == Timeouts(n - 1);
      TimeoutCount(n - 1);
    }
  }

  /** Timeouts the machine still absorbs before it gives up. */
  function Budget(m: Machine): (b: nat)
    ensures b >= 1
  {
    if m.retries < m.max then m.max - m.retries else 1
  }

  /** Every step is a timeout, or is ignored by the machine that meets it. */
  predicate OnlyTimeouts(m: Machine, steps: seq<Step>)
    decreases |steps|
  {
    steps == [] ||
    ((steps[0] == Ev(Event.Timeout) || Apply(m, steps[0]) == m) && OnlyTimeouts(Apply(m, steps[0]), steps[1..]))
  }

  /** The machine after `k` timeouts, in closed form. */
  function AfterTimeouts(m: Machine, k: nat): Machine
    requires m.state.IsBusy() && m.retries + Budget(m) < U32_MODULUS
  {
    if k == 0 then m
    else if k < Budget(m) then Machine(Reconnecting(m.state.server, m.retries + k, m.max), m.retries + k, m.max)
    else
      var text := if m.state.Connecting? && Budget(m) == 1 then TIMEOUT_TEXT else GaveUpText(m.max);
      Machine(Failed(m.state.server, text), m.retries + Budget(m), m.max)
  }

  lemma {:induction false} FailedStays(m: Machine, steps: seq<Step>)
    requires m.state.Failed? && OnlyTimeouts(m, steps)
    ensures Run(m, steps) == m
    decreases |steps|
  {
    if steps != [] {
      FailedStays(m, steps[1..]);
    }
  }

  lemma {:induction false} TimeoutsOnly(m: Machine, n: nat)
    ensures OnlyTimeouts(m, Timeouts(n))
    decreases n
  {
    if n > 0 {
      assert Timeouts(n)[1..] == Timeouts(n - 1);
      TimeoutsOnly(Apply(m, Ev(Event.Timeout)), n - 1);
    }
  }

  /** A single timeout, in closed form. */
  lemma FirstTimeout(m: Machine)
    requires m.state.IsBusy() && m.retries + Budget(m) < U32_MODULUS
    ensures Apply(m, Ev(Event.Timeout)) == AfterTimeouts(m, 1)
  {
  }

  /** One timeout is the first of `k + 1`, and after giving up the others do not matter. */
  lemma OneTimeout(m: Machine, k: nat)
    requires m.state.IsBusy() && m.retries + Budget(m) < U32_MODULUS
    ensures var m' := Apply(m, Ev(Event.Timeout));
            if m'.state.Failed? then m' == AfterTimeouts(m, k + 1)
            else m'.state.IsBusy() && m'.retries + Budget(m') < U32_MODULUS && AfterTimeouts(m', k) == AfterTimeouts(m, k + 1)
  {
    FirstTimeout(m);
    if Budget(m) > 1 {
      assert Budget(AfterTimeouts(m, 1)) == Budget(m) - 1;
    }
  }

  /**
   The exact retry budget: however the timeouts are interleaved with ignored
   events, only their number decides the machine, and the machine gives up at
   timeout number `Budget(m)`, neither earlier nor later.
   */
  lemma {:induction false} BudgetClosedForm(m: Machine, steps: seq<Step>)
    requires m.state.IsBusy() && m.retries + Budget(m) < U32_MODULUS
    requires OnlyTimeouts(m, steps)
    ensures Run(m, steps) == AfterTimeouts(m, CountTimeouts(steps))
    decreases |steps|
  {
    if steps != [] {
      var m', rest := Apply(m, steps[0]), steps[1..];
      if steps[0] != Ev(Event.Timeout) {
        BudgetClosedForm(m, rest);
      } else {
        OneTimeout(m, CountTimeouts(rest));
        if m'.state.Failed? {
          FailedStays(m', rest);
        } else {
          BudgetClosedForm(m', rest);
        }
      }
    }
  }

  /** A connect gives up after exactly max(1, max) timeouts. */
  lemma ConnectBudget(max: U32, server: string, steps: seq<Step>)
    requires OnlyTimeouts(Machine(Connecting(server), 0, max), steps)
    ensures Run(Fresh(max), [Ev(UserEnable(server))] + steps).state.Failed? <==> CountTimeouts(steps) >= Max(1, max)
  {
    var run := [Ev(UserEnable(server))] + steps;
    assert run[1..] == steps;
    BudgetClosedForm(Machine(Connecting(server), 0, max), steps);
  }

  /**
   A dropped connection gives up after exactly max(1, max - 1) timeouts, because
   the drop itself is counted as the first attempt.
   */
  lemma DropBudget(m: Machine, drop: Event, steps: seq<Step>)
    requires m.state.IsUp()
    requires drop.NmVpnDown? || (drop.HealthDead? && m.state.Degraded?)
    requires OnlyTimeouts(Machine(Reconnecting(m.state.server, 1, m.max), 1, m.max), steps)
    ensures Run(m, [Ev(drop)] + steps).state.Failed? <==> CountTimeouts(steps) >= Max(1, if m.max == 0 then 0 else m.max - 1)
  {
    var dropped := Machine(Reconnecting(m.state.server, 1, m.max), 1, m.max);
    RunConcat(m, [Ev(drop)], steps);
    RunOne(m, Ev(drop));
    assert Run(m, [Ev(drop)]) == dropped;
    BudgetClosedForm(dropped, steps);
  }

  // ---------------------------------------------------------------------
  // Leaving: the escape hatch and forced states
  // ---------------------------------------------------------------------

  /** After a disable, or a forced `Disconnected`, the past no longer matters. */
  lemma DisconnectForgets(m: Machine, before: seq<Step>, leave: Step, after: seq<Step>)
    requires leave == Ev(UserDisable) || leave == Force(Disconnected)
    ensures Run(m, before + [leave] + after) == Run(Fresh(m.max), after)
  {
    RunConcat(m, before + [leave], after);
    RunConcat(m, before, [leave]);
    RunOne(Run(m, before), leave);
    LeavingResets(Run(m, before), leave);
  }

  lemma LeavingResets(m: Machine, leave: Step)
    requires leave == Ev(UserDisable) || leave == Force(Disconnected)
    ensures Apply(m, leave) == Fresh(m.max)
  {
  }

  /** The attempt number on display is the counter. */
  predicate AttemptShown(m: Machine) {
    m.state.Reconnecting? ==> m.state.attempt == m.retries
  }

  /** ... and is so after every step of the run. */
  predicate ShownThroughout(m: Machine, steps: seq<Step>)
    decreases |steps|
  {
    AttemptShown(m) && (steps != [] ==> ShownThroughout(Apply(m, steps[0]), steps[1..]))
  }

  /** Every forced `Reconnecting` carries the counter of the machine it is forced on. */
  predicate ForcesCounter(m: Machine, steps: seq<Step>)
    decreases |steps|
  {
    steps == [] ||
    ((steps[0].Force? && steps[0].target.Reconnecting? ==> steps[0].target.attempt == m.retries) &&
     ForcesCounter(Apply(m, steps[0]), steps[1..]))
  }

  /**
   The machine promises that the attempt on display always equals the counter. Over
   every run this holds exactly when each forced `Reconnecting` carried the counter.
   */
  lemma {:induction false} ShownIffForced(m: Machine, steps: seq<Step>)
    requires AttemptShown(m)
    ensures ShownThroughout(m, steps) <==> ForcesCounter(m, steps)
    decreases |steps|
  {
    if steps != [] {
      var m' := Apply(m, steps[0]);
      assert AttemptShown(m') <==> (steps[0].Force? && steps[0].target.Reconnecting? ==> steps[0].target.attempt == m.retries);
      if AttemptShown(m') {
        ShownIffForced(m', steps[1..]);
      }
    }
  }

  /** The targets of the wake-up resync. */
  predicate IsWakeTarget(t: VpnState) {
    t.Disconnected? || t.Connecting? || t.Connected?
  }

  /** Forced wake-up states, which keep the counter, come only when it is 0, or are `Disconnected`. */
  predicate WakesAtZero(m: Machine, steps: seq<Step>)
    decreases |steps|
  {
    steps == [] ||
    ((steps[0].Force? && !steps[0].target.Disconnected? ==> m.retries == 0) &&
     WakesAtZero(Apply(m, steps[0]), steps[1..]))
  }

  /** The machine is consistent after every step. */
  predicate ConsistentThroughout(m: Machine, steps: seq<Step>)
    decreases |steps|
  {
    Consistent(m) && (steps != [] ==> ConsistentThroughout(Apply(m, steps[0]), steps[1..]))
  }

  /** With wake-up resyncs the invariant survives exactly when each came with the counter at 0. */
  lemma {:induction false} WakeKeepsIff(m: Machine, steps: seq<Step>)
    requires Consistent(m)
    requires forall i :: 0 <= i < |steps| && steps[i].Force? ==> IsWakeTarget(steps[i].target)
    ensures ConsistentThroughout(m, steps) <==> WakesAtZero(m, steps)
    decreases |steps|
  {
    if steps != [] {
      var m' := Apply(m, steps[0]);
      if steps[0].Ev? || steps[0].target.Disconnected? {
        ApplyKeepsConsistent(m, steps[0]);
      }
      if Consistent(m') {
        WakeKeepsIff(m', steps[1..]);
      }
    }
  }

  /** Wake-up resyncs to `Connecting`, each followed by a report that the connection failed. */
  function WakeCycles(server: string, n: nat): seq<Step> {
    if n == 0 then [] else [Force(Connecting(server)), Ev(NmVpnDown)] + WakeCycles(server, n - 1)
  }

  /** Otherwise the counter has no bound: such cycles take it to every 32-bit value. */
  lemma {:induction false} WakeCyclesUnbounded(m: Machine, server: string, n: nat)
    requires m.retries + n < U32_MODULUS
    ensures Run(m, WakeCycles(server, n)).retries == m.retries + n
    decreases n
  {
    if n > 0 {
      var wake, failed := Force(Connecting(server)), Ev(NmVpnDown);
      RunConcat(m, [wake, failed], WakeCycles(server, n - 1));
      RunTwo(m, wake, failed);
      WakeCyclesUnbounded(Apply(Apply(m, wake), failed), server, n - 1);
    }
  }
}
