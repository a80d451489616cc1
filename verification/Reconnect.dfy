/**
 Reconnecting after a lost tunnel, as the steps it takes on the state machine. What
 NetworkManager answers and what the user does meanwhile are inputs.
 */
module Reconnect {
  import opened Basics
  import opened VpnTypes
  import opened StateMachine
  import opened StateMachineRuns

  /**
   What happens around one attempt. The cancellation flag is not part of it: a reconnect
   clears it first, and while it runs nothing else in the supervisor does.
   */
  datatype Trial = Trial(
    activeBefore: Option<string>, // NetworkManager's answer before the attempt
    leavesWaiting: bool,          // the user disconnects during the backoff
    connects: bool,               // the connect command succeeds
    leavesVerifying: bool,        // the user disconnects before verification
    activeAfter: Option<string>)  // NetworkManager's answer at verification

  /** Everything one reconnect meets; `trials(k)` is met by attempt number `k`. */
  datatype Answers = Answers(busy: bool, debounced: bool, active: Option<string>, listed: bool, trials: nat -> Trial)

  function ExhaustedText(max: nat): string {
    "Max attempts (" + Decimal(max) + ") exceeded"
  }

  function NotListedText(server: string): string {
    "VPN '" + server + "' no longer exists"
  }

  // ---------------------------------------------------------------------
  // The steps
  // ---------------------------------------------------------------------

  predicate Leaves(t: Trial) {
    t.leavesWaiting || (t.connects && t.leavesVerifying)
  }

  predicate Reaches(t: Trial, server: string) {
    t.connects && t.activeAfter == Some(server)
  }

  /** No further attempt follows this one. */
  predicate Decides(t: Trial, server: string) {
    t.activeBefore.Some? || Leaves(t) || Reaches(t, server)
  }

  function TrialSteps(server: string, k: U32, max: U32, t: Trial): seq<Step> {
    if t.activeBefore.Some? then [Ev(NmVpnUp(t.activeBefore.value))]
    else
      [Force(Reconnecting(server, k, max))] +
      if Leaves(t) then [Force(Disconnected)] else if Reaches(t, server) then [Ev(NmVpnUp(server))] else []
  }

  /** The loop from attempt `k` on. */
  function LoopSteps(server: string, k: nat, max: U32, trials: nat -> Trial): seq<Step>
    decreases max + 1 - k
  {
    if k > max then [Force(Failed(server, ExhaustedText(max)))]
    else
      TrialSteps(server, k, max, trials(k)) +
      if Decides(trials(k), server) then [] else LoopSteps(server, k + 1, max, trials)
  }

  function ReconnectSteps(server: string, max: U32, a: Answers): seq<Step> {
    if a.busy || a.debounced then []
    else if a.active.Some? then [Ev(NmVpnUp(a.active.value))]
    else if !a.listed then [Ev(Event.ConnectionFailed(NotListedText(server)))]
    else LoopSteps(server, 1, max, a.trials)
  }

  // ---------------------------------------------------------------------
  // How it ends
  // ---------------------------------------------------------------------

  /** The first decisive trial from number `k` on, or a number beyond the limit. */
  function FirstDecisive(server: string, k: nat, max: U32, trials: nat -> Trial): (n: nat)
    ensures k <= n && (n <= max || n == Max(k, max + 1))
    ensures forall i :: k <= i < n && i <= max ==> !Decides(trials(i), server)
    ensures n <= max ==> Decides(trials(n), server)
    decreases max + 1 - k
  {
    if k > max || Decides(trials(k), server) then k else FirstDecisive(server, k + 1, max, trials)
  }

  datatype End =
    | Skipped
    | FoundActive(server: string, attempted: bool) // attempted: after some attempt was made
    | NotListed
    | UserLeft
    | Reached
    | Exhausted

  function TrialEnd(server: string, n: nat, t: Trial): End {
    if t.activeBefore.Some? then FoundActive(t.activeBefore.value, n > 1)
    else if Leaves(t) then UserLeft
    else Reached
  }

  function EndOf(server: string, max: U32, a: Answers): End {
    if a.busy || a.debounced then Skipped
    else if a.active.Some? then FoundActive(a.active.value, false)
    else if !a.listed then NotListed
    else
      var n := FirstDecisive(server, 1, max, a.trials);
      if n > max then Exhausted else TrialEnd(server, n, a.trials(n))
  }

  /** The machine at the end. */
  function Ended(m: Machine, server: string, end: End): Machine {
    match end
    case Skipped => m
    case FoundActive(c, attempted) => if attempted then Machine(Connected(c), 0, m.max) else Handle(m, NmVpnUp(c))
    case NotListed => Handle(m, Event.ConnectionFailed(NotListedText(server)))
    case UserLeft => Fresh(m.max)
    case Reached => Machine(Connected(server), 0, m.max)
    case Exhausted => Machine(Failed(server, ExhaustedText(m.max)), m.retries, m.max)
  }

  lemma TrialRun(m: Machine, server: string, k: U32, t: Trial)
    ensures var r := Run(m, TrialSteps(server, k, m.max, t));
            if !Decides(t, server) then r == Machine(Reconnecting(server, k, m.max), m.retries, m.max)
            else if t.activeBefore.Some? then r == Handle(m, NmVpnUp(t.activeBefore.value))
            else r == if Leaves(t) then Fresh(m.max) else Machine(Connected(server), 0, m.max)
  {
    var steps := TrialSteps(server, k, m.max, t);
    if |steps| == 1 {
      assert steps == [steps[0]];
      RunOne(m, steps[0]);
    } else {
      assert steps == [steps[0], steps[1]];
      RunTwo(m, steps[0], steps[1]);
    }
  }

  /** The loop from attempt `k` on ends at the first decisive trial, or gives up. */
  lemma {:induction false} LoopRun(m: Machine, server: string, k: nat, trials: nat -> Trial)
    requires 1 <= k <= m.max + 1 && (k > 1 ==> m.state.Reconnecting?)
    ensures var n := FirstDecisive(server, k, m.max, trials);
            Run(m, LoopSteps(server, k, m.max, trials)) ==
            Ended(m, server, if n > m.max then Exhausted else TrialEnd(server, n, trials(n)))
    decreases m.max + 1 - k
  {
    var steps := LoopSteps(server, k, m.max, trials);
    if k > m.max {
      RunOne(m, steps[0]);
    } else {
      var first := TrialSteps(server, k, m.max, trials(k));
      TrialRun(m, server, k, trials(k));
      if Decides(trials(k), server) {
        assert steps == first;
      } else {
        RunConcat(m, first, LoopSteps(server, k + 1, m.max, trials));
        LoopRun(Run(m, first), server, k + 1, trials);
      }
    }
  }

  /** Every reconnect, from every machine, in closed form. */
  lemma ReconnectEnds(m: Machine, server: string, a: Answers)
    ensures Run(m, ReconnectSteps(server, m.max, a)) == Ended(m, server, EndOf(server, m.max, a))
  {
    var steps := ReconnectSteps(server, m.max, a);
    if a.busy || a.debounced {
    } else if a.active.Some? || !a.listed {
      RunOne(m, steps[0]);
    } else {
      LoopRun(m, server, 1, a.trials);
    }
  }

  /** A reconnect gives up exactly when nothing stops it and no trial up to the limit decides. */
  lemma ExhaustedIff(server: string, max: U32, a: Answers)
    ensures EndOf(server, max, a).Exhausted? <==>
            && !a.busy && !a.debounced && a.active.None? && a.listed
            && forall k :: 1 <= k <= max ==> !Decides(a.trials(k), server)
  {
  }

  // In terms of what NetworkManager answers and the user does

  /** Nothing was active before the attempt, the user stayed, and no connection was verified. */
  predicate Quiet(t: Trial, server: string) {
    && t.activeBefore.None? && !t.leavesWaiting
    && (t.connects ==> !t.leavesVerifying && t.activeAfter != Some(server))
  }

  /** Attempt `n` is the first at which anything happens. */
  predicate FirstEvent(server: string, max: U32, a: Answers, n: nat) {
    1 <= n <= max && !Quiet(a.trials(n), server) && forall k :: 1 <= k < n ==> Quiet(a.trials(k), server)
  }

  predicate StartsLoop(a: Answers) {
    !a.busy && !a.debounced && a.active.None? && a.listed
  }

  /** A reconnect that does not start its loop. */
  lemma ReconnectGuards(m: Machine, server: string, a: Answers)
    ensures var r := Run(m, ReconnectSteps(server, m.max, a));
            && (a.busy || a.debounced ==> r == m)
            && (!a.busy && !a.debounced && a.active.Some? ==> r == Handle(m, NmVpnUp(a.active.value)))
            && (!a.busy && !a.debounced && a.active.None? && !a.listed ==> r == if m.state.IsBusy() then Fresh(m.max) else m)
  {
    ReconnectEnds(m, server, a);
  }

  /** The machine a reconnect ends in, when attempt `n` is the first at which anything happens. */
  lemma LoopByEvent(m: Machine, server: string, a: Answers, n: nat)
    requires StartsLoop(a) && FirstEvent(server, m.max, a, n)
    ensures var r, t := Run(m, ReconnectSteps(server, m.max, a)), a.trials(n);
            if t.activeBefore.Some? then
              r == if n == 1 then Handle(m, NmVpnUp(t.activeBefore.value)) else Machine(Connected(t.activeBefore.value), 0, m.max)
            else if t.leavesWaiting || (t.connects && t.leavesVerifying) then r == Fresh(m.max)
            else t.connects && t.activeAfter == Some(server) && r == Machine(Connected(server), 0, m.max)
  {
    ReconnectEnds(m, server, a);
    assert FirstDecisive(server, 1, m.max, a.trials) == n;
  }

  /** The machine a reconnect ends in, when nothing happens at any attempt. */
  lemma LoopWithoutEvent(m: Machine, server: string, a: Answers)
    requires StartsLoop(a) && forall k :: 1 <= k <= m.max ==> Quiet(a.trials(k), server)
    ensures Run(m, ReconnectSteps(server, m.max, a)) == Machine(Failed(server, ExhaustedText(m.max)), m.retries, m.max)
  {
    ReconnectEnds(m, server, a);
  }

  /**
   How a reconnect that starts its loop ends. It reaches the server through an attempt
   exactly when, at the first attempt at which anything happens, nothing was active
   before, the user stayed, the command succeeded and the server was then active. It is
   left exactly when there the user left while waiting or after a successful command. It
   gives up exactly when at every attempt nothing was active, the user stayed, and the
   command failed or the server was not active afterwards.
   */
  lemma LoopEndsIff(server: string, max: U32, a: Answers)
    requires StartsLoop(a)
    ensures var end := EndOf(server, max, a);
            && (end.Reached? <==>
                exists n :: FirstEvent(server, max, a, n) &&
                            var t := a.trials(n);
                            && t.activeBefore.None? && !t.leavesWaiting
                            && t.connects && !t.leavesVerifying && t.activeAfter == Some(server))
            && (end.UserLeft? <==>
                exists n :: FirstEvent(server, max, a, n) &&
                            var t := a.trials(n);
                            t.activeBefore.None? && (t.leavesWaiting || (t.connects && t.leavesVerifying)))
            && (end.FoundActive? <==>
                exists n :: FirstEvent(server, max, a, n) && a.trials(n).activeBefore.Some?)
            && (end.Exhausted? <==> forall k :: 1 <= k <= max ==> Quiet(a.trials(k), server))
  {
    var n := FirstDecisive(server, 1, max, a.trials);
    if n <= max {
      assert FirstEvent(server, max, a, n);
      forall m | FirstEvent(server, max, a, m) ensures m == n {
        assert !Quiet(a.trials(n), server) && !Quiet(a.trials(m), server);
      }
    }
  }

  lemma TextsDiffer(max: nat)
    ensures ExhaustedText(max) !in {TIMEOUT_TEXT, FAILURE_TEXT, GaveUpText(max)}
  {
    assert ExhaustedText(max)[4] == 'a' && GaveUpText(max)[4] == 'r';
    assert ExhaustedText(max)[0] == 'M' && TIMEOUT_TEXT[0] == 'C' && FAILURE_TEXT[0] == 'C';
  }

  /** A reconnect leaves a machine that plain events can reach exactly when it does not give up. */
  lemma ReconnectConsistentIff(m: Machine, server: string, a: Answers)
    requires Consistent(m)
    ensures Consistent(Run(m, ReconnectSteps(server, m.max, a))) <==> !EndOf(server, m.max, a).Exhausted?
  {
    ReconnectEnds(m, server, a);
    TextsDiffer(m.max);
  }

  /** Giving up leaves the counter where it was, whatever number of attempts is reported. */
  lemma ExhaustedCounter(m: Machine, server: string, a: Answers)
    requires EndOf(server, m.max, a).Exhausted?
    ensures Run(m, ReconnectSteps(server, m.max, a)).retries == m.retries
  {
    ReconnectEnds(m, server, a);
  }

  lemma EndedCountedIff(m: Machine, server: string, end: End)
    requires Counted(m)
    ensures Counted(Ended(m, server, end)) <==> !end.Exhausted? || m.retries >= Max(1, m.max)
  {
    match end
    case FoundActive(c, _) => CountedIffFits(m, Ev(NmVpnUp(c)));
    case NotListed => CountedIffFits(m, Ev(Event.ConnectionFailed(NotListedText(server))));
    case Exhausted =>
      assert ExhaustedText(m.max)[0] == 'M';
      CountedIffFits(m, Force(Failed(server, ExhaustedText(m.max))));
    case _ =>
  }

  /**
   A reconnect keeps the counter facts exactly when it does not give up, or gives up with
   the counter already at the limit it reports.
   */
  lemma ReconnectCountedIff(m: Machine, server: string, a: Answers)
    requires Counted(m)
    ensures Counted(Run(m, ReconnectSteps(server, m.max, a))) <==>
            !EndOf(server, m.max, a).Exhausted? || m.retries >= Max(1, m.max)
  {
    ReconnectEnds(m, server, a);
    EndedCountedIff(m, server, EndOf(server, m.max, a));
  }

  // ---------------------------------------------------------------------
  // How many attempts
  // ---------------------------------------------------------------------

  function CountAttempts(steps: seq<Step>): nat {
    if steps == [] then 0
    else (if steps[0].Force? && steps[0].target.Reconnecting? then 1 else 0) + CountAttempts(steps[1..])
  }

  lemma {:induction false} CountAttemptsConcat(a: seq<Step>, b: seq<Step>)
    ensures CountAttempts(a + b) == CountAttempts(a) + CountAttempts(b)
  {
    if a == [] {
      assert a + b == b;
    } else {
      assert (a + b)[1..] == a[1..] + b;
      CountAttemptsConcat(a[1..], b);
    }
  }

  lemma TrialAttempts(server: string, k: U32, max: U32, t: Trial)
    ensures CountAttempts(TrialSteps(server, k, max, t)) == if t.activeBefore.Some? then 0 else 1
  {
    var s := TrialSteps(server, k, max, t);
    if |s| == 1 {
      assert s[1..] == [];
    } else {
      assert s == [s[0]] + [s[1]];
      CountAttemptsConcat([s[0]], [s[1]]);
      assert [s[0]][1..] == [] && [s[1]][1..] == [];
    }
  }

  lemma {:induction false} LoopAttempts(server: string, k: nat, max: U32, trials: nat -> Trial)
    requires k <= max + 1
    ensures CountAttempts(LoopSteps(server, k, max, trials)) <= max + 1 - k
    ensures FirstDecisive(server, k, max, trials) > max ==> CountAttempts(LoopSteps(server, k, max, trials)) == max + 1 - k
    decreases max + 1 - k
  {
    var steps := LoopSteps(server, k, max, trials);
    if k > max {
      assert steps[1..] == [];
    } else {
      var first := TrialSteps(server, k, max, trials(k));
      TrialAttempts(server, k, max, trials(k));
      if Decides(trials(k), server) {
        assert steps == first;
      } else {
        LoopAttempts(server, k + 1, max, trials);
        CountAttemptsConcat(first, LoopSteps(server, k + 1, max, trials));
      }
    }
  }

  /** No limit is endless: a reconnect makes at most `max` attempts, and gives up after exactly `max`. */
  lemma AttemptsBounded(server: string, max: U32, a: Answers)
    ensures CountAttempts(ReconnectSteps(server, max, a)) <= max
    ensures EndOf(server, max, a).Exhausted? ==> CountAttempts(ReconnectSteps(server, max, a)) == max
  {
    LoopAttempts(server, 1, max, a.trials);
    var steps := ReconnectSteps(server, max, a);
    if !a.busy && !a.debounced && (a.active.Some? || !a.listed) {
      assert steps[1..] == [];
    }
  }

  /**
   The configuration guide promises endless retries for a limit of 0. With it every
   reconnect that has work to do gives up without a single attempt; with any other
   limit it does so only when each of its attempts failed.
   */
  lemma ZeroIsNotEndless(m: Machine, server: string, a: Answers)
    requires !a.busy && !a.debounced && a.active.None? && a.listed
    ensures var steps := ReconnectSteps(server, m.max, a);
            && (m.max == 0 ==> Run(m, steps).state == Failed(server, ExhaustedText(0)) && CountAttempts(steps) == 0)
            && (m.max > 0 && EndOf(server, m.max, a).Exhausted? ==> CountAttempts(steps) == m.max > 0)
  {
    ReconnectEnds(m, server, a);
    AttemptsBounded(server, m.max, a);
  }

  lemma TrialForces(m: Machine, server: string, k: U32, t: Trial, rest: seq<Step>)
    ensures ForcesCounter(m, TrialSteps(server, k, m.max, t) + rest) <==>
            && (t.activeBefore.Some? || k == m.retries)
            && ForcesCounter(Run(m, TrialSteps(server, k, m.max, t)), rest)
  {
    var s := TrialSteps(server, k, m.max, t);
    if |s| == 1 {
      assert s == [s[0]] && (s + rest)[1..] == rest;
      RunOne(m, s[0]);
    } else {
      assert s == [s[0], s[1]] && (s + rest)[1..] == [s[1]] + rest && ([s[1]] + rest)[1..] == rest;
      RunTwo(m, s[0], s[1]);
    }
  }

  lemma {:induction false} LoopForces(m: Machine, server: string, k: nat, trials: nat -> Trial)
    requires k <= m.max + 1
    ensures var n := CountAttempts(LoopSteps(server, k, m.max, trials));
            ForcesCounter(m, LoopSteps(server, k, m.max, trials)) <==> n == 0 || (n == 1 && k == m.retries)
    decreases m.max + 1 - k
  {
    var steps := LoopSteps(server, k, m.max, trials);
    if k > m.max {
      assert steps[1..] == [];
    } else {
      var t := trials(k);
      var first := TrialSteps(server, k, m.max, t);
      var rest := if Decides(t, server) then [] else LoopSteps(server, k + 1, m.max, trials);
      TrialForces(m, server, k, t, rest);
      TrialAttempts(server, k, m.max, t);
      CountAttemptsConcat(first, rest);
      if !Decides(t, server) {
        TrialRun(m, server, k, t);
        LoopForces(Run(m, first), server, k + 1, trials);
      }
    }
  }

  /**
   Through a reconnect the attempt on display equals the counter exactly when no
   attempt was made, or only the first one, with the counter at 1.
   */
  lemma ReconnectLoopDesync(m: Machine, server: string, a: Answers)
    requires AttemptShown(m)
    ensures var steps := ReconnectSteps(server, m.max, a);
            ShownThroughout(m, steps) <==>
            CountAttempts(steps) == 0 || (CountAttempts(steps) == 1 && m.retries == 1)
  {
    var steps := ReconnectSteps(server, m.max, a);
    ShownIffForced(m, steps);
    if !a.busy && !a.debounced {
      if a.active.Some? || !a.listed {
        assert steps[1..] == [];
      } else {
        LoopForces(m, server, 1, a.trials);
      }
    }
  }
}
