/**
 The supervisor around the state machine: dispatching events, reconciling with
 what NetworkManager reports, and applying health verdicts.
 */
module Supervisor {
  import opened Basics
  import opened VpnTypes
  import opened StateMachine
  import opened StateMachineRuns
  import opened Reconnect
  import HC = HealthChecker

  // ---------------------------------------------------------------------
  // Reconciliation with NetworkManager
  // ---------------------------------------------------------------------

  /** The correction a sync makes for the active connection it was told of, if any. */
  function Correction(s: VpnState, active: Option<string>, autoReconnect: bool): Option<Step> {
    match (s, active)
    case (Disconnected, Some(c)) => Some(Ev(NmVpnUp(c)))
    case (Connected(_), None) => Some(Force(Disconnected))
    case (Connected(server), Some(c)) => if server != c then Some(Ev(NmVpnUp(c))) else None
    case (Reconnecting(_, _, _), Some(c)) => Some(Ev(NmVpnUp(c)))
    case (Failed(_, _), Some(c)) => Some(Ev(NmVpnUp(c)))
    case (Degraded(server), Some(c)) => if server != c then Some(Ev(NmVpnUp(c))) else None
    case (Degraded(_), None) => Some(Force(Disconnected))
    case (Connecting(_), None) => if autoReconnect then None else Some(Force(Disconnected))
    case _ => None
  }

  /** The machine after a sync. */
  function Synced(m: Machine, active: Option<string>, autoReconnect: bool): Machine {
    match Correction(m.state, active, autoReconnect)
    case None => m
    case Some(step) => Apply(m, step)
  }

  /** The health counters after a sync: a sync that ends in `Connected` clears them. */
  function SyncedCounters(m: Machine, n: HC.Counters, active: Option<string>, autoReconnect: bool): HC.Counters {
    if Correction(m.state, active, autoReconnect).Some? && Synced(m, active, autoReconnect).state.Connected?
    then HC.Counters(0, 0) else n
  }

  /** What the supervisor keeps beside the machine. */
  datatype Books = Books(counters: HC.Counters, lastServer: Option<string>)

  /** The books after one step. */
  function Booked(m: Machine, b: Books, s: Step): Books {
    var m' := Apply(m, s);
    if s.Ev? && m'.state.Connected? then Books(HC.Counters(0, 0), m'.state.ServerName()) else b
  }

  /** The books after a run: an event, not a forced state, that ends in `Connected` updates them. */
  function BooksAfter(m: Machine, b: Books, steps: seq<Step>): Books
    decreases |steps|
  {
    if steps == [] then b else BooksAfter(Apply(m, steps[0]), Booked(m, b, steps[0]), steps[1..])
  }

  lemma {:induction false} BooksConcat(m: Machine, b: Books, x: seq<Step>, y: seq<Step>)
    ensures BooksAfter(m, b, x + y) == BooksAfter(Run(m, x), BooksAfter(m, b, x), y)
    decreases |x|
  {
    if x == [] {
      assert x + y == y;
    } else {
      assert (x + y)[0] == x[0] && (x + y)[1..] == x[1..] + y;
      BooksConcat(Apply(m, x[0]), Booked(m, b, x[0]), x[1..], y);
    }
  }

  lemma BooksOne(m: Machine, b: Books, s: Step)
    ensures BooksAfter(m, b, [s]) == Booked(m, b, s)
  {
    assert [s][1..] == [];
  }

  /** Clear counters stay clear. */
  lemma {:induction false} ClearStays(m: Machine, b: Books, steps: seq<Step>)
    requires b.counters == HC.Counters(0, 0)
    ensures BooksAfter(m, b, steps).counters == HC.Counters(0, 0)
    decreases |steps|
  {
    if steps != [] {
      BooksOne(m, b, steps[0]);
      assert steps == [steps[0]] + steps[1..];
      BooksConcat(m, b, [steps[0]], steps[1..]);
      RunOne(m, steps[0]);
      ClearStays(Apply(m, steps[0]), BooksAfter(m, b, [steps[0]]), steps[1..]);
    }
  }

  /** The steps a failure report takes. */
  function FailureSteps(name: string, reason: string, max: U32, autoReconnect: bool, a: Answers): seq<Step> {
    if autoReconnect then [Ev(NmVpnDown)] + ReconnectSteps(name, max, a) else [Force(Failed(name, reason))]
  }

  /** What a wake-up resync finds. */
  datatype Found = Active(name: string) | Starting(name: string) | Stopping | Nothing

  function ResyncSteps(s: VpnState, found: Found): seq<Step> {
    match found
    case Active(name) => [Force(Connected(name))]
    case Starting(name) => [Force(Connecting(name))]
    case Stopping => [Force(Disconnected)]
    case Nothing => if s.IsBusy() then [] else [Force(Disconnected)]
  }

  class VpnSupervisor {
    const machine: StateMachine
    const checker: HC.HealthChecker
    /** The copy of the state that the tray and the IPC server read. */
    var sharedState: VpnState
    var autoReconnect: bool
    var reconnectCancelled: bool
    var lastServer: Option<string>

    constructor (max: U32, config: HC.HealthConfig, auto: bool)
      ensures machine.Value() == Fresh(max) && fresh(machine)
      ensures checker.config == config && checker.Value() == HC.Counters(0, 0) && fresh(checker)
      ensures sharedState == machine.state && autoReconnect == auto
    {
      machine := new StateMachine(max);
      checker := new HC.HealthChecker(config);
      sharedState, autoReconnect, reconnectCancelled, lastServer := Disconnected, auto, false, None;
    }

    /**
     Feed one event to the machine. Ending up `Connected` resets the checker, also
     when the event itself was ignored. `lockFree` says whether the shared copy
     could be locked without waiting.
     */
    method Dispatch(e: Event, lockFree: bool)
      modifies this, machine, checker
      ensures machine.Value() == Handle(old(machine.Value()), e)
      ensures machine.state.Connected? ==> checker.Value() == HC.Counters(0, 0) && lastServer == Some(machine.state.server)
      ensures !machine.state.Connected? ==> checker.Value() == old(checker.Value()) && lastServer == old(lastServer)
      ensures sharedState == if lockFree then machine.state else old(sharedState)
      ensures autoReconnect == old(autoReconnect) && reconnectCancelled == old(reconnectCancelled)
    {
      var _ := machine.HandleEvent(e);
      if machine.state.Connected? {
        checker.Reset();
        lastServer := Some(machine.state.server);
      }
      if lockFree {
        sharedState := machine.state;
      }
    }

    method SyncSharedState()
      modifies this`sharedState
      ensures sharedState == machine.state
    {
      sharedState := machine.state;
    }

    /** Reconcile with the connection NetworkManager reports active. */
    method SyncStateFromNm(active: Option<string>, lockFree: bool) returns (corrected: bool)
      modifies this, machine, checker
      ensures machine.Value() == Synced(old(machine.Value()), active, autoReconnect)
      ensures checker.Value() == SyncedCounters(old(machine.Value()), old(checker.Value()), active, autoReconnect)
      ensures corrected == Correction(old(machine.state), active, autoReconnect).Some?
      ensures sharedState == if corrected then machine.state else old(sharedState)
      ensures reconnectCancelled == (old(reconnectCancelled) || (old(machine.state).Reconnecting? && active.Some?))
      ensures lastServer ==
              if corrected && machine.state.Connected? then machine.state.ServerName() else old(lastServer)
      ensures autoReconnect == old(autoReconnect)
    {
      match (machine.state, active) {
        case (Disconnected, Some(c)) => Dispatch(NmVpnUp(c), lockFree);
        case (Connected(_), None) => machine.SetState(Disconnected);
        case (Connected(server), Some(c)) =>
          if server == c {
            return false;
          }
          Dispatch(NmVpnUp(c), lockFree);
        case (Reconnecting(_, _, _), Some(c)) =>
          reconnectCancelled := true;
          Dispatch(NmVpnUp(c), lockFree);
        case (Failed(_, _), Some(c)) => Dispatch(NmVpnUp(c), lockFree);
        case (Degraded(server), Some(c)) =>
          if server == c {
            return false;
          }
          Dispatch(NmVpnUp(c), lockFree);
        case (Degraded(_), None) => machine.SetState(Disconnected);
        case (Connecting(_), None) =>
          if autoReconnect {
            return false;
          }
          machine.SetState(Disconnected);
        case _ => return false;
      }
      SyncSharedState();
      return true;
    }

    ghost function Ledger(): Books
      reads this, checker
    {
      Books(checker.Value(), lastServer)
    }

    /** Feed one event and publish the state at once. */
    method DispatchAndShare(e: Event, lockFree: bool)
      modifies this, machine, checker
      ensures machine.Value() == Run(old(machine.Value()), [Ev(e)])
      ensures Ledger() == BooksAfter(old(machine.Value()), old(Ledger()), [Ev(e)])
      ensures sharedState == machine.state
      ensures autoReconnect == old(autoReconnect) && reconnectCancelled == old(reconnectCancelled)
    {
      RunOne(machine.Value(), Ev(e));
      BooksOne(machine.Value(), Ledger(), Ev(e));
      Dispatch(e, lockFree);
      SyncSharedState();
    }

    /** Force a state and publish it at once. */
    method ForceAndShare(t: VpnState)
      modifies this, machine
      ensures machine.Value() == Run(old(machine.Value()), [Force(t)])
      ensures Ledger() == old(Ledger()) == BooksAfter(old(machine.Value()), old(Ledger()), [Force(t)])
      ensures sharedState == machine.state
      ensures autoReconnect == old(autoReconnect) && reconnectCancelled == old(reconnectCancelled)
    {
      RunOne(machine.Value(), Force(t));
      BooksOne(machine.Value(), Ledger(), Force(t));
      machine.SetState(t);
      SyncSharedState();
    }

    /** Ask before reconnecting: `Some(true)` to go on, otherwise the machine now follows what is active. */
    method ShouldAttemptReconnect(target: string, active: Option<string>, lockFree: bool) returns (go: Option<bool>)
      modifies this, machine, checker
      ensures go == (match active case None => Some(true) case Some(c) => if c == target then Some(false) else None)
      ensures var steps := if active.None? then [] else [Ev(NmVpnUp(active.value))];
              && machine.Value() == Run(old(machine.Value()), steps)
              && Ledger() == BooksAfter(old(machine.Value()), old(Ledger()), steps)
      ensures sharedState == if active.Some? then machine.state else old(sharedState)
      ensures autoReconnect == old(autoReconnect) && reconnectCancelled == old(reconnectCancelled)
    {
      if active.None? {
        return Some(true);
      }
      DispatchAndShare(NmVpnUp(active.value), lockFree);
      return if active.value == target then Some(false) else None;
    }

    /** One attempt of the loop; `decided` says that the loop ends here. */
    method TryOnce(server: string, attempt: U32, t: Trial, lockFree: bool) returns (decided: bool)
      modifies this, machine, checker
      ensures decided == Decides(t, server)
      ensures var steps := TrialSteps(server, attempt, machine.maxRetries, t);
              && machine.Value() == Run(old(machine.Value()), steps)
              && Ledger() == BooksAfter(old(machine.Value()), old(Ledger()), steps)
      ensures sharedState == machine.state
      ensures autoReconnect == old(autoReconnect) && reconnectCancelled == old(reconnectCancelled)
    {
      var go := ShouldAttemptReconnect(server, t.activeBefore, lockFree);
      if go != Some(true) {
        return true;
      }
      ghost var m, b := machine.Value(), Ledger();
      var shown := Reconnecting(server, attempt, machine.maxRetries);
      ForceAndShare(shown);
      ghost var first := [Force(shown)];
      RunConcat(m, first, [Force(Disconnected)]);
      RunConcat(m, first, [Ev(NmVpnUp(server))]);
      BooksConcat(m, b, first, [Force(Disconnected)]);
      BooksConcat(m, b, first, [Ev(NmVpnUp(server))]);
      assert first + [] == first;
      if t.leavesWaiting {
        ForceAndShare(Disconnected);
        return true;
      }
      if t.connects {
        if t.leavesVerifying {
          ForceAndShare(Disconnected);
          return true;
        }
        if t.activeAfter == Some(server) {
          DispatchAndShare(NmVpnUp(server), lockFree);
          return true;
        }
      }
      return false;
    }

    /** Try to get the lost connection back. */
    method AttemptReconnect(server: string, a: Answers, lockFree: bool)
      modifies this, machine, checker
      ensures var steps := ReconnectSteps(server, machine.maxRetries, a);
              && machine.Value() == Run(old(machine.Value()), steps)
              && Ledger() == BooksAfter(old(machine.Value()), old(Ledger()), steps)
              && sharedState == if steps == [] then old(sharedState) else machine.state
      ensures reconnectCancelled == (old(reconnectCancelled) && (a.busy || a.debounced))
      ensures autoReconnect == old(autoReconnect)
    {
      if a.busy || a.debounced {
        return;
      }
      reconnectCancelled := false;
      var go := ShouldAttemptReconnect(server, a.active, lockFree);
      if go != Some(true) {
        return;
      }
      if !a.listed {
        DispatchAndShare(Event.ConnectionFailed(NotListedText(server)), lockFree);
        return;
      }
      ghost var m, b := machine.Value(), Ledger();
      for attempt := 1 to machine.maxRetries + 1
        invariant var rest := LoopSteps(server, attempt, machine.maxRetries, a.trials);
                  && Run(machine.Value(), rest) == Run(m, LoopSteps(server, 1, machine.maxRetries, a.trials))
                  && BooksAfter(machine.Value(), Ledger(), rest) ==
                     BooksAfter(m, b, LoopSteps(server, 1, machine.maxRetries, a.trials))
        invariant autoReconnect == old(autoReconnect) && !reconnectCancelled
      {
        ghost var first, rest := TrialSteps(server, attempt, machine.maxRetries, a.trials(attempt)),
                                 LoopSteps(server, attempt + 1, machine.maxRetries, a.trials);
        RunConcat(machine.Value(), first, rest);
        BooksConcat(machine.Value(), Ledger(), first, rest);
        assert first + [] == first;
        assert !reconnectCancelled; // so the check of the flag finds it clear
        var decided := TryOnce(server, attempt, a.trials(attempt), lockFree);
        if decided {
          return;
        }
      }
      ForceAndShare(Failed(server, ExhaustedText(machine.maxRetries)));
    }

    /** A VPN failed: reconnect if that is on, otherwise just show it as failed. */
    method HandleVpnFailed(name: string, reason: string, a: Answers, lockFree: bool)
      modifies this, machine, checker
      ensures var steps := FailureSteps(name, reason, machine.maxRetries, autoReconnect, a);
              && machine.Value() == Run(old(machine.Value()), steps)
              && Ledger() == BooksAfter(old(machine.Value()), old(Ledger()), steps)
      ensures sharedState == machine.state && autoReconnect == old(autoReconnect)
    {
      if autoReconnect {
        ghost var m, b := machine.Value(), Ledger();
        ghost var steps := ReconnectSteps(name, m.max, a);
        RunConcat(m, [Ev(NmVpnDown)], steps);
        BooksConcat(m, b, [Ev(NmVpnDown)], steps);
        DispatchAndShare(NmVpnDown, lockFree);
        AttemptReconnect(name, a, lockFree);
      } else {
        ForceAndShare(Failed(name, reason));
      }
    }

    /** After a wake-up, take over what NetworkManager reports. */
    method ForceStateResync(found: Found)
      modifies this, machine
      ensures var steps := ResyncSteps(old(machine.state), found);
              machine.Value() == Run(old(machine.Value()), steps) && Ledger() == old(Ledger())
      ensures sharedState == machine.state
      ensures autoReconnect == old(autoReconnect) && reconnectCancelled == old(reconnectCancelled)
    {
      match found {
        case Active(name) => ForceAndShare(Connected(name));
        case Starting(name) => ForceAndShare(Connecting(name));
        case Stopping => ForceAndShare(Disconnected);
        case Nothing =>
          if !machine.state.IsBusy() {
            ForceAndShare(Disconnected);
          }
      }
      SyncSharedState();
    }

    /** Decide whether a network probe is warranted. */
    method BeginHealthCheck(active: Option<string>, lockFree: bool, now: nat) returns (launch: bool)
      modifies this, machine, checker
      ensures machine.Value() == Synced(old(machine.Value()), active, autoReconnect)
      ensures launch ==> machine.Value() == old(machine.Value()) && machine.state.IsUp() && active == machine.state.ServerName()
      ensures launch <==>
              && old(machine.state).IsUp() && active == Some(old(machine.state).server)
              && !old(checker.IsSuspended(now))
      ensures autoReconnect == old(autoReconnect)
    {
      var suspended := checker.IsSuspended(now);
      var corrected := SyncStateFromNm(active, lockFree);
      if corrected {
        return false;
      }
      if !machine.state.IsUp() {
        return false;
      }
      return !suspended;
    }

    /** Apply a completed probe; a dead one leads straight into a reconnect, if that is on. */
    method FinishHealthCheck(o: HC.Observation, a: Answers, lockFree: bool)
      modifies this, machine, checker
      ensures machine.Value() ==
              HealthApplied(checker.config, old(machine.Value()), old(Ledger()), o, autoReconnect, a).machine
      ensures Ledger() == HealthApplied(checker.config, old(machine.Value()), old(Ledger()), o, autoReconnect, a).books
      ensures autoReconnect == old(autoReconnect)
    {
      if !machine.state.IsUp() {
        return;
      }
      var server := machine.state.server;
      var result := checker.Evaluate(o);
      match result {
        case Healthy =>
          if machine.state.Degraded? {
            DispatchAndShare(HealthOk, lockFree);
          }
        case Degraded(_) =>
          if machine.state.Connected? {
            DispatchAndShare(HealthDegraded, lockFree);
          }
        case Dead(_) =>
          if autoReconnect {
            ghost var m, b := machine.Value(), Ledger();
            ghost var steps := ReconnectSteps(server, m.max, a);
            RunConcat(m, [Ev(HealthDead)], steps);
            BooksConcat(m, b, [Ev(HealthDead)], steps);
            DispatchAndShare(HealthDead, lockFree);
            AttemptReconnect(server, a, lockFree);
          } else {
            ForceAndShare(Disconnected);
          }
      }
    }
  }

  /** Syncing with nothing active never leaves the machine up. */
  lemma SyncWithoutVpn(m: Machine, autoReconnect: bool)
    ensures LinkOf(Synced(m, None, autoReconnect).state) == Down
    ensures Synced(m, None, autoReconnect) ==
            if m.state.IsUp() || (m.state.Connecting? && !autoReconnect) then Fresh(m.max) else m
  {
  }

  /** The machine is up on another connection than the active one. */
  predicate OnAnother(s: VpnState, active: Option<string>) {
    s.IsUp() && active.Some? && s.server != active.value
  }

  /**
   Convergence, exactly: a sync ends up on the active connection unless the machine
   was connecting, or was up on another connection. In that last case the event the
   sync sends has no rule, so the machine stays where it was.
   */
  lemma SyncConvergesIff(m: Machine, c: string, autoReconnect: bool)
    ensures var s := Synced(m, Some(c), autoReconnect).state;
            s.IsUp() && s.server == c <==> !m.state.Connecting? && !OnAnother(m.state, Some(c))
    ensures OnAnother(m.state, Some(c)) ==> Synced(m, Some(c), autoReconnect) == m
  {
  }

  /** Repeating a sync reports a correction again exactly when the first had no effect. */
  lemma SecondSyncQuietIff(m: Machine, active: Option<string>, autoReconnect: bool)
    ensures Correction(Synced(m, active, autoReconnect).state, active, autoReconnect).None? <==> !OnAnother(m.state, active)
  {
  }

  /** The documented answer, "true if state was corrected", fails exactly on another connection. */
  lemma AnswerMeansChangedIff(m: Machine, active: Option<string>, autoReconnect: bool)
    ensures (Correction(m.state, active, autoReconnect).Some? <==> Synced(m, active, autoReconnect) != m)
            <==> !OnAnother(m.state, active)
  {
  }

  function SyncedTimes(m: Machine, active: Option<string>, autoReconnect: bool, n: nat): Machine {
    if n == 0 then m else Synced(SyncedTimes(m, active, autoReconnect, n - 1), active, autoReconnect)
  }

  /**
   While NetworkManager reports another connection, syncing never moves the machine,
   and every sync claims a correction, so no health check is launched either.
   */
  lemma {:induction false} StuckOnAnother(m: Machine, active: Option<string>, autoReconnect: bool, n: nat)
    requires OnAnother(m.state, active)
    ensures SyncedTimes(m, active, autoReconnect, n) == m
    ensures Correction(SyncedTimes(m, active, autoReconnect, n).state, active, autoReconnect).Some?
  {
    if n > 0 {
      StuckOnAnother(m, active, autoReconnect, n - 1);
    }
  }

  // ---------------------------------------------------------------------
  // Health verdicts
  // ---------------------------------------------------------------------

  datatype Applied = Applied(machine: Machine, books: Books)

  /** The steps a completed probe takes on a machine that is up on `server`. */
  function HealthSteps(s: VpnState, max: U32, v: HC.HealthResult, autoReconnect: bool, a: Answers): seq<Step>
    requires s.IsUp()
  {
    match v
    case Healthy => if s.Degraded? then [Ev(HealthOk)] else []
    case Degraded(_) => if s.Connected? then [Ev(HealthDegraded)] else []
    case Dead(_) =>
      if autoReconnect then [Ev(HealthDead)] + ReconnectSteps(s.server, max, a) else [Force(Disconnected)]
  }

  /** Machine and books after a completed probe. */
  function HealthApplied(c: HC.HealthConfig, m: Machine, b: Books, o: HC.Observation, autoReconnect: bool, a: Answers): Applied {
    if !m.state.IsUp() then Applied(m, b)
    else
      var n := HC.CountersAfter(b.counters, HC.Sight(c, o));
      var steps := HealthSteps(m.state, m.max, HC.Verdict(c, n, o), autoReconnect, a);
      Applied(Run(m, steps), BooksAfter(m, b.(counters := n), steps))
  }

  /** A verdict other than dead is what the machine shows afterwards, for the same server. */
  lemma VerdictShows(c: HC.HealthConfig, m: Machine, b: Books, o: HC.Observation, autoReconnect: bool, a: Answers)
    requires m.state.IsUp()
    ensures var v := HC.Verdict(c, HC.CountersAfter(b.counters, HC.Sight(c, o)), o);
            var r := HealthApplied(c, m, b, o, autoReconnect, a);
            && (v.Healthy? ==> r.machine == Machine(Connected(m.state.server), m.retries, m.max))
            && (v.Degraded? ==> r.machine == Machine(Degraded(m.state.server), m.retries, m.max))
            && (v.Dead? && !autoReconnect ==> r.machine == Fresh(m.max))
  {
    RunOne(m, Ev(HealthOk));
    RunOne(m, Ev(HealthDegraded));
    RunOne(m, Force(Disconnected));
  }

  /** What a failure report with reconnecting off, and a wake-up, show; the counter stays unless it is `Disconnected`. */
  lemma ForcedShows(m: Machine, name: string, reason: string, a: Answers, found: Found)
    ensures Run(m, FailureSteps(name, reason, m.max, false, a)) == Machine(Failed(name, reason), m.retries, m.max)
    ensures var r := Run(m, ResyncSteps(m.state, found));
            match found
            case Active(n) => r == Machine(Connected(n), m.retries, m.max)
            case Starting(n) => r == Machine(Connecting(n), m.retries, m.max)
            case Stopping => r == Fresh(m.max)
            case Nothing => r == if m.state.Connecting? || m.state.Reconnecting? then m else Fresh(m.max)
  {
    RunOne(m, Force(Failed(name, reason)));
    var steps := ResyncSteps(m.state, found);
    if steps != [] {
      RunOne(m, steps[0]);
    }
  }

  /** How a dead verdict with reconnecting on leaves the link, by the way the reconnect ended. */
  predicate DownAfter(wasDegraded: bool, end: End) {
    match end
    case Skipped => wasDegraded
    case FoundActive(_, _) => false
    case NotListed => wasDegraded
    case UserLeft => true
    case Reached => false
    case Exhausted => true
  }

  lemma DeadRun(m: Machine, a: Answers)
    requires m.state.IsUp()
    ensures var after := Run(m, [Ev(HealthDead)] + ReconnectSteps(m.state.server, m.max, a));
            after == Ended(Handle(m, HealthDead), m.state.server, EndOf(m.state.server, m.max, a))
  {
    RunConcat(m, [Ev(HealthDead)], ReconnectSteps(m.state.server, m.max, a));
    RunOne(m, Ev(HealthDead));
    ReconnectEnds(Handle(m, HealthDead), m.state.server, a);
  }

  lemma DeadLink(m: Machine, server: string, end: End)
    requires m.state.IsUp()
    ensures LinkOf(Ended(Handle(m, HealthDead), server, end).state) == Down <==> DownAfter(m.state.Degraded?, end)
  {
  }

  lemma DeadForgets(m: Machine, b: Books, steps: seq<Step>)
    requires m.state.Connected?
    ensures BooksAfter(m, b, [Ev(HealthDead)] + steps).counters == HC.Counters(0, 0)
  {
    BooksConcat(m, b, [Ev(HealthDead)], steps);
    BooksOne(m, b, Ev(HealthDead));
    ClearStays(Run(m, [Ev(HealthDead)]), BooksAfter(m, b, [Ev(HealthDead)]), steps);
  }

  /**
   A dead verdict, with the reconnect it sets off, leaves the machine down exactly when
   reconnecting is off, or the user left or every attempt failed, or nothing was tried
   and the machine was degraded. From `Connected` the event itself has no rule, and the
   streak that led to the verdict is forgotten.
   */
  lemma DeadTakesDownIff(c: HC.HealthConfig, m: Machine, b: Books, o: HC.Observation, autoReconnect: bool, a: Answers)
    requires m.state.IsUp()
    requires HC.Verdict(c, HC.CountersAfter(b.counters, HC.Sight(c, o)), o).Dead?
    ensures var r := HealthApplied(c, m, b, o, autoReconnect, a);
            && (LinkOf(r.machine.state) == Down <==>
                !autoReconnect || DownAfter(m.state.Degraded?, EndOf(m.state.server, m.max, a)))
            && (autoReconnect && m.state.Connected? ==> r.books.counters == HC.Counters(0, 0))
  {
    if autoReconnect {
      var end := EndOf(m.state.server, m.max, a);
      DeadRun(m, a);
      DeadLink(m, m.state.server, end);
      if m.state.Connected? {
        DeadForgets(m, b.(counters := HC.CountersAfter(b.counters, HC.Sight(c, o))), ReconnectSteps(m.state.server, m.max, a));
      }
    } else {
      RunOne(m, Force(Disconnected));
    }
  }

  const MISSED := HC.Observation(None, None, HC.DnsLeakResult.Unknown)

  /** Machine and books after `n` missed probes in a row. */
  function AfterMisses(c: HC.HealthConfig, m: Machine, b: Books, n: nat, a: Answers): Applied {
    if n == 0 then Applied(m, b)
    else
      var before := AfterMisses(c, m, b, n - 1, a);
      HealthApplied(c, before.machine, before.books, MISSED, true, a)
  }

  lemma OneMiss(c: HC.HealthConfig, n: nat)
    requires n + 1 < U32_MODULUS
    ensures var counters := HC.CountersAfter(HC.Counters(n, n), HC.Sight(c, MISSED));
            && counters == HC.Counters(n + 1, n + 1)
            && (HC.Verdict(c, counters, MISSED).Dead? <==> n + 1 >= c.failureThreshold)
            && !HC.Verdict(c, counters, MISSED).Healthy?
  {
  }

  lemma MissDegrades(c: HC.HealthConfig, m: Machine, last: Option<string>, n: nat, a: Answers)
    requires m.state.IsUp() && n + 1 < c.failureThreshold
    ensures HealthApplied(c, m, Books(HC.Counters(n, n), last), MISSED, true, a) ==
            Applied(Machine(Degraded(m.state.server), m.retries, m.max), Books(HC.Counters(n + 1, n + 1), last))
  {
    OneMiss(c, n);
    RunOne(m, Ev(HealthDegraded));
    BooksOne(m, Books(HC.Counters(n + 1, n + 1), last), Ev(HealthDegraded));
  }

  lemma MissKills(c: HC.HealthConfig, m: Machine, last: Option<string>, n: nat, a: Answers)
    requires m.state.IsUp() && n + 1 == Max(1, c.failureThreshold)
    ensures HealthApplied(c, m, Books(HC.Counters(n, n), last), MISSED, true, a).machine ==
            Ended(Handle(m, HealthDead), m.state.server, EndOf(m.state.server, m.max, a))
  {
    OneMiss(c, n);
    DeadRun(m, a);
  }

  /** What `n` misses in a row make of a connection to `server`. */
  function StreakMachine(c: HC.HealthConfig, server: string, max: U32, n: nat, a: Answers): Machine {
    if n == 0 then Machine(Connected(server), 0, max)
    else if n < Max(1, c.failureThreshold) then Machine(Degraded(server), 0, max)
    else
      var met := if n == 1 then Machine(Connected(server), 0, max) else Machine(Reconnecting(server, 1, max), 1, max);
      Ended(met, server, EndOf(server, max, a))
  }

  lemma StreakStep(c: HC.HealthConfig, server: string, max: U32, last: Option<string>, n: nat, a: Answers)
    requires n < Max(1, c.failureThreshold)
    ensures var r := HealthApplied(c, StreakMachine(c, server, max, n, a), Books(HC.Counters(n, n), last), MISSED, true, a);
            && r.machine == StreakMachine(c, server, max, n + 1, a)
            && (n + 1 < Max(1, c.failureThreshold) ==> r.books == Books(HC.Counters(n + 1, n + 1), last))
  {
    var m := StreakMachine(c, server, max, n, a);
    if n + 1 < Max(1, c.failureThreshold) {
      MissDegrades(c, m, last, n, a);
    } else {
      MissKills(c, m, last, n, a);
    }
  }

  /**
   A tunnel that stops answering: from `Connected` with clear counters the machine is
   degraded by the first miss, stays so, and miss number max(1, failure_threshold), not
   an earlier one, sets off the reconnect. With a threshold of 0 or 1 that is the first
   miss, and the reconnect meets a machine that still claims to be connected.
   */
  lemma {:induction false} MissStreak(c: HC.HealthConfig, server: string, max: U32, last: Option<string>, n: nat, a: Answers)
    requires n <= Max(1, c.failureThreshold)
    ensures var r := AfterMisses(c, Machine(Connected(server), 0, max), Books(HC.Counters(0, 0), last), n, a);
            && r.machine == StreakMachine(c, server, max, n, a)
            && (n < Max(1, c.failureThreshold) ==> r.books == Books(HC.Counters(n, n), last))
  {
    if n > 0 {
      MissStreak(c, server, max, last, n - 1, a);
      StreakStep(c, server, max, last, n - 1, a);
    }
  }

  // ---------------------------------------------------------------------
  // Runs that mix everything the supervisor reacts to
  // ---------------------------------------------------------------------

  datatype Input =
    | Deliver(event: Event)
    | Sync(active: Option<string>)
    | Probe(observation: HC.Observation, meets: Answers)
    | Failure(name: string, reason: string, meets: Answers)
    | Retry(server: string, meets: Answers)
    | Wake(found: Found)

  datatype World = World(machine: Machine, books: Books, autoReconnect: bool)

  function React(c: HC.HealthConfig, w: World, i: Input): World {
    match i
    case Deliver(e) => Follow(w, [Ev(e)])
    case Sync(active) =>
      var step := Correction(w.machine.state, active, w.autoReconnect);
      Follow(w, if step.Some? then [step.value] else [])
    case Probe(o, a) =>
      var r := HealthApplied(c, w.machine, w.books, o, w.autoReconnect, a);
      w.(machine := r.machine, books := r.books)
    case Failure(name, reason, a) => Follow(w, FailureSteps(name, reason, w.machine.max, w.autoReconnect, a))
    case Retry(server, a) => Follow(w, ReconnectSteps(server, w.machine.max, a))
    case Wake(found) => Follow(w, ResyncSteps(w.machine.state, found))
  }

  function Follow(w: World, steps: seq<Step>): World {
    w.(machine := Run(w.machine, steps), books := BooksAfter(w.machine, w.books, steps))
  }

  /** The reconnect an input sets off: the machine it meets, the server and the answers. */
  function SetsOff(c: HC.HealthConfig, w: World, i: Input): Option<(Machine, string, Answers)> {
    match i
    case Retry(server, a) => Some((w.machine, server, a))
    case Failure(name, _, a) => if w.autoReconnect then Some((Handle(w.machine, NmVpnDown), name, a)) else None
    case Probe(o, a) =>
      if w.autoReconnect && w.machine.state.IsUp()
         && HC.Verdict(c, HC.CountersAfter(w.books.counters, HC.Sight(c, o)), o).Dead?
      then Some((Handle(w.machine, HealthDead), w.machine.state.server, a))
      else None
    case _ => None
  }

  /** The state an input forces by itself, other than `Disconnected`. */
  function Forces(w: World, i: Input): Option<VpnState> {
    match i
    case Failure(name, reason, _) => if w.autoReconnect then None else Some(Failed(name, reason))
    case Wake(Active(name)) => Some(Connected(name))
    case Wake(Starting(name)) => Some(Connecting(name))
    case _ => None
  }

  /** The steps of any other input, one event or a forced `Disconnected` at most. */
  function PlainStep(c: HC.HealthConfig, w: World, i: Input): Option<Step> {
    match i
    case Deliver(e) => Some(Ev(e))
    case Sync(active) => Correction(w.machine.state, active, w.autoReconnect)
    case Probe(o, a) =>
      if !w.machine.state.IsUp() then None
      else
        var v := HC.Verdict(c, HC.CountersAfter(w.books.counters, HC.Sight(c, o)), o);
        var steps := HealthSteps(w.machine.state, w.machine.max, v, w.autoReconnect, a);
        if steps == [] then None else Some(steps[0])
    case Wake(_) => Some(Force(Disconnected))
    case _ => None
  }

  /** Every input comes down to a reconnect, a forced state, or at most one plain step. */
  lemma ReactIs(c: HC.HealthConfig, w: World, i: Input)
    ensures var m' := React(c, w, i).machine;
            match (SetsOff(c, w, i), Forces(w, i))
            case (Some((met, server, a)), _) => met.max == w.machine.max && m' == Run(met, ReconnectSteps(server, met.max, a))
            case (None, Some(t)) => m' == Forced(w.machine, t)
            case (None, None) =>
              m' == w.machine || (PlainStep(c, w, i).Some? && m' == Apply(w.machine, PlainStep(c, w, i).value))
    ensures SetsOff(c, w, i).None? && Forces(w, i).None? && PlainStep(c, w, i).Some? && PlainStep(c, w, i).value.Force? ==>
              PlainStep(c, w, i).value.target.Disconnected?
  {
    var m := w.machine;
    match i
    case Deliver(e) => RunOne(m, Ev(e));
    case Sync(active) =>
      var step := Correction(m.state, active, w.autoReconnect);
      if step.Some? {
        RunOne(m, step.value);
      }
    case Probe(o, a) => ProbeIs(c, w, o, a);
    case Failure(name, reason, a) =>
      RunConcat(m, [Ev(NmVpnDown)], ReconnectSteps(name, m.max, a));
      RunOne(m, Ev(NmVpnDown));
      RunOne(m, Force(Failed(name, reason)));
    case Retry(_, _) =>
    case Wake(found) =>
      var steps := ResyncSteps(m.state, found);
      if steps != [] {
        RunOne(m, steps[0]);
      }
  }

  lemma ProbeIs(c: HC.HealthConfig, w: World, o: HC.Observation, a: Answers)
    ensures var m' := React(c, w, Probe(o, a)).machine;
            match SetsOff(c, w, Probe(o, a))
            case Some((met, server, _)) => met.max == w.machine.max && m' == Run(met, ReconnectSteps(server, met.max, a))
            case None =>
              var step := PlainStep(c, w, Probe(o, a));
              m' == w.machine || (step.Some? && m' == Apply(w.machine, step.value))
  {
    var m := w.machine;
    if m.state.IsUp() {
      var v := HC.Verdict(c, HC.CountersAfter(w.books.counters, HC.Sight(c, o)), o);
      var steps := HealthSteps(m.state, m.max, v, w.autoReconnect, a);
      if v.Dead? && w.autoReconnect {
        RunConcat(m, [Ev(HealthDead)], ReconnectSteps(m.state.server, m.max, a));
        RunOne(m, Ev(HealthDead));
      } else if steps != [] {
        RunOne(m, steps[0]);
      }
    }
  }

  // The counter facts

  /**
   The input leaves a counter that does not fit: a reconnect gives up short of the limit
   it reports, a failure is shown short of it or without a reason, or a wake-up finds a
   connection while the counter is not 0.
   */
  predicate Miscounts(c: HC.HealthConfig, w: World, i: Input) {
    match (SetsOff(c, w, i), Forces(w, i))
    case (Some((met, server, a)), _) => EndOf(server, met.max, a).Exhausted? && met.retries < Max(1, met.max)
    case (None, Some(t)) => !Fits(w.machine, Force(t))
    case (None, None) => false
  }

  predicate NeverMiscounts(c: HC.HealthConfig, w: World, inputs: seq<Input>)
    decreases |inputs|
  {
    inputs == [] || (!Miscounts(c, w, inputs[0]) && NeverMiscounts(c, React(c, w, inputs[0]), inputs[1..]))
  }

  predicate AlwaysCounted(c: HC.HealthConfig, w: World, inputs: seq<Input>)
    decreases |inputs|
  {
    Counted(w.machine) && (inputs != [] ==> AlwaysCounted(c, React(c, w, inputs[0]), inputs[1..]))
  }

  lemma ReactCountedIff(c: HC.HealthConfig, w: World, i: Input)
    requires Counted(w.machine)
    ensures Counted(React(c, w, i).machine) <==> !Miscounts(c, w, i)
  {
    ReactIs(c, w, i);
    CountedIffFits(w.machine, Ev(NmVpnDown));
    CountedIffFits(w.machine, Ev(HealthDead));
    match (SetsOff(c, w, i), Forces(w, i))
    case (Some((met, server, a)), _) => ReconnectCountedIff(met, server, a);
    case (None, Some(t)) => CountedIffFits(w.machine, Force(t));
    case (None, None) =>
      if PlainStep(c, w, i).Some? {
        CountedIffFits(w.machine, PlainStep(c, w, i).value);
      }
  }

  /**
   Over every run of events, syncs, probes, failure reports, reconnects and wake-ups, the
   counter fits the state after every input, exactly when no input miscounts.
   */
  lemma {:induction false} MixedRunsCountedIff(c: HC.HealthConfig, w: World, inputs: seq<Input>)
    requires Counted(w.machine)
    ensures AlwaysCounted(c, w, inputs) <==> NeverMiscounts(c, w, inputs)
    decreases |inputs|
  {
    if inputs != [] {
      var w' := React(c, w, inputs[0]);
      ReactCountedIff(c, w, inputs[0]);
      if Counted(w'.machine) {
        MixedRunsCountedIff(c, w', inputs[1..]);
      }
    }
  }

  // Reachability, which also depends on the reason a failure gives

  /** A failure the machine itself could have reached. */
  predicate OwnFailure(m: Machine, reason: string) {
    || (reason in {TIMEOUT_TEXT, FAILURE_TEXT} && m.max <= 1 && m.retries == 1)
    || (reason == GaveUpText(m.max) && m.retries == Max(m.max, 2))
  }

  /** The input leaves a machine that plain events cannot reach. */
  predicate Departs(c: HC.HealthConfig, w: World, i: Input) {
    match (SetsOff(c, w, i), Forces(w, i))
    case (Some((met, server, a)), _) => EndOf(server, met.max, a).Exhausted?
    case (None, Some(Failed(_, reason))) => !OwnFailure(w.machine, reason)
    case (None, Some(_)) => w.machine.retries != 0
    case (None, None) => false
  }

  predicate NeverDeparts(c: HC.HealthConfig, w: World, inputs: seq<Input>)
    decreases |inputs|
  {
    inputs == [] || (!Departs(c, w, inputs[0]) && NeverDeparts(c, React(c, w, inputs[0]), inputs[1..]))
  }

  predicate AlwaysConsistent(c: HC.HealthConfig, w: World, inputs: seq<Input>)
    decreases |inputs|
  {
    Consistent(w.machine) && (inputs != [] ==> AlwaysConsistent(c, React(c, w, inputs[0]), inputs[1..]))
  }

  lemma ReactConsistentIff(c: HC.HealthConfig, w: World, i: Input)
    requires Consistent(w.machine)
    ensures Consistent(React(c, w, i).machine) <==> !Departs(c, w, i)
  {
    ReactIs(c, w, i);
    ApplyKeepsConsistent(w.machine, Ev(NmVpnDown));
    ApplyKeepsConsistent(w.machine, Ev(HealthDead));
    match (SetsOff(c, w, i), Forces(w, i))
    case (Some((met, server, a)), _) => ReconnectConsistentIff(met, server, a);
    case (None, Some(t)) =>
    case (None, None) =>
      if PlainStep(c, w, i).Some? {
        ApplyKeepsConsistent(w.machine, PlainStep(c, w, i).value);
      }
  }

  /** The same for reachability by plain events: every reconnect that gives up departs, by its reason. */
  lemma {:induction false} MixedRunsConsistentIff(c: HC.HealthConfig, w: World, inputs: seq<Input>)
    requires Consistent(w.machine)
    ensures AlwaysConsistent(c, w, inputs) <==> NeverDeparts(c, w, inputs)
    decreases |inputs|
  {
    if inputs != [] {
      var w' := React(c, w, inputs[0]);
      ReactConsistentIff(c, w, inputs[0]);
      if Consistent(w'.machine) {
        MixedRunsConsistentIff(c, w', inputs[1..]);
      }
    }
  }
}
