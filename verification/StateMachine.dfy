/**
 The VPN connection state machine: six states, fourteen events, one canonical
 retry counter. `Transition` is the rule table as a function; the class applies
 the same rules step by step, updating `retries` while it picks the next state.
 */
module StateMachine {
  import opened Basics
  import opened VpnTypes

  /** The whole state of one machine as a value. */
  datatype Machine = Machine(state: VpnState, retries: U32, max: U32)

  /** What one rule does: next state, next counter value, logged reason. */
  datatype Outcome = Outcome(state: VpnState, retries: U32, reason: TransitionReason)

  function Fresh(max: U32): Machine {
    Machine(Disconnected, 0, max)
  }

  const TIMEOUT_TEXT := "Connection timeout"
  const FAILURE_TEXT := "Connection failed"

  function GaveUpText(max: nat): string {
    "Max reconnection attempts (" + Decimal(max) + ") exceeded"
  }

  /** One failed attempt: count it, and give up once the count reaches `max`. */
  function CountAttempt(m: Machine, server: string, giveUp: string): Outcome {
    var r := Increment(m.retries);
    if r >= m.max then Outcome(Failed(server, giveUp), r, RetriesExhausted)
    else Outcome(Reconnecting(server, r, m.max), r, Retrying)
  }

  /** The rules of the current state alone. */
  function StateRule(m: Machine, e: Event): Option<Outcome> {
    match m.state
    case Disconnected =>
      (match e
       case UserEnable(s) => Some(Outcome(Connecting(s), 0, UserRequested))
       case NmVpnUp(s) => Some(Outcome(Connected(s), 0, ExternalChange))
       case _ => None)
    case Connecting(server) =>
      (match e
       case NmVpnUp(s) => Some(Outcome(Connected(s), 0, VpnEstablished))
       case ConnectionFailed(_) => Some(Outcome(Disconnected, 0, TransitionReason.ConnectionFailed))
       case Timeout => Some(CountAttempt(m, server, TIMEOUT_TEXT))
       case NmVpnDown => Some(CountAttempt(m, server, FAILURE_TEXT))
       case _ => None)
    case Connected(server) =>
      (match e
       case HealthDegraded => Some(Outcome(Degraded(server), m.retries, HealthCheckFailed))
       case NmVpnDown => Some(Outcome(Reconnecting(server, 1, m.max), 1, VpnLost))
       case NmVpnChanged(s) => Some(Outcome(Connected(s), 0, ExternalChange))
       case _ => None)
    case Degraded(server) =>
      (match e
       case HealthDead => Some(Outcome(Reconnecting(server, 1, m.max), 1, HealthCheckDead))
       case HealthOk => Some(Outcome(Connected(server), m.retries, VpnReestablished))
       case NmVpnDown => Some(Outcome(Reconnecting(server, 1, m.max), 1, VpnLost))
       case _ => None)
    case Reconnecting(server, _, _) =>
      (match e
       case NmVpnUp(s) => Some(Outcome(Connected(s), 0, VpnReestablished))
       case ConnectionFailed(_) => Some(Outcome(Disconnected, 0, TransitionReason.ConnectionFailed))
       case Timeout => Some(CountAttempt(m, server, GaveUpText(m.max)))
       case _ => None)
    case Failed(_, _) =>
      (match e
       case UserEnable(s) => Some(Outcome(Connecting(s), 0, UserRequested))
       case NmVpnUp(s) => Some(Outcome(Connected(s), 0, ExternalChange))
       case _ => None)
  }

  /** The rules of the current state, then the rule that holds in every state. */
  function Transition(m: Machine, e: Event): (o: Option<Outcome>)
    // an event without a rule is one the state ignores; the user can always disconnect
    ensures e.UserDisable? ==> o == Some(Outcome(Disconnected, 0, UserRequested))
    // the logged reason tells what happened to which kind of state
    ensures o.Some? ==> var s := o.value.state;
              match o.value.reason
              case UserRequested => (e.UserDisable? && s.Disconnected?) || (e.UserEnable? && s.Connecting?)
              case VpnEstablished => m.state.Connecting? && e.NmVpnUp? && s.Connected?
              case VpnReestablished =>
                s.Connected? && ((m.state.Reconnecting? && e.NmVpnUp?) || (m.state.Degraded? && e.HealthOk?))
              case ExternalChange =>
                && s.Connected?
                && if m.state.Connected? then e.NmVpnChanged? else e.NmVpnUp? && (m.state.Disconnected? || m.state.Failed?)
              case VpnLost => m.state.IsUp() && e.NmVpnDown? && s.Reconnecting?
              case HealthCheckFailed => m.state.Connected? && e.HealthDegraded? && s.Degraded?
              case HealthCheckDead => m.state.Degraded? && e.HealthDead? && s.Reconnecting?
              case ConnectionFailed => m.state.IsBusy() && e.ConnectionFailed? && s.Disconnected?
              case Retrying => m.state.IsBusy() && (e.Timeout? || e.NmVpnDown?) && s.Reconnecting?
              case RetriesExhausted => m.state.IsBusy() && (e.Timeout? || e.NmVpnDown?) && s.Failed?
              case _ => false
  {
    var o := StateRule(m, e);
    if o.None? && e.UserDisable? then Some(Outcome(Disconnected, 0, UserRequested)) else o
  }

  /** The machine after one event; an event without a rule changes nothing. */
  function Handle(m: Machine, e: Event): Machine {
    match Transition(m, e)
    case None => m
    case Some(o) => Machine(o.state, o.retries, m.max)
  }

  /** The machine after its state was set from outside. */
  function Forced(m: Machine, target: VpnState): Machine {
    Machine(target, if target.Disconnected? then 0 else m.retries, m.max)
  }

  class StateMachine {
    var state: VpnState
    var retries: U32
    const maxRetries: U32

    ghost function Value(): Machine
      reads this
    {
      Machine(state, retries, maxRetries)
    }

    constructor (max: U32)
      ensures Value() == Fresh(max)
    {
      state, retries, maxRetries := Disconnected, 0, max;
    }

    /** Apply one event; the reason is returned exactly when a rule fired. */
    method HandleEvent(e: Event) returns (r: Option<TransitionReason>)
      modifies this
      ensures Value() == Handle(old(Value()), e)
      ensures r == match Transition(old(Value()), e) case None => None case Some(o) => Some(o.reason)
    {
      var next, reason := ComputeTransition(e);
      if next.Some? {
        state := next.value;
        return Some(reason);
      }
      return None;
    }

    /** Set the state from outside; only `Disconnected` clears the counter. */
    method SetState(target: VpnState)
      modifies this
      ensures Value() == Forced(old(Value()), target)
    {
      if target.Disconnected? {
        retries := 0;
      }
      state := target;
    }

    /** Choose the next state and update the counter; `state` itself is left alone. */
    method ComputeTransition(e: Event) returns (next: Option<VpnState>, reason: TransitionReason)
      modifies this`retries
      ensures Chosen(Transition(old(Value()), e), old(retries), next, reason)
    {
      match state {
        case Disconnected => next, reason := FromDisconnected(e);
        case Connecting(server) => next, reason := FromConnecting(server, e);
        case Connected(server) => next, reason := FromConnected(server, e);
        case Degraded(server) => next, reason := FromDegraded(server, e);
        case Reconnecting(server, _, _) => next, reason := FromReconnecting(server, e);
        case Failed(_, _) => next, reason := FromFailed(e);
      }
      if next.Some? {
        return;
      }
      match e {
        case UserDisable =>
          retries := 0;
          next, reason := Some(Disconnected), UserRequested;
        case Wake => next, reason := None, WakeResync;
        case _ => next, reason := None, Unknown;
      }
    }

    /** `next`, `reason` and the counter are what the rule outcome `o` says. */
    ghost predicate Chosen(o: Option<Outcome>, before: U32, next: Option<VpnState>, reason: TransitionReason)
      reads this
    {
      match o
      case None => next.None? && retries == before
      case Some(out) => next == Some(out.state) && reason == out.reason && retries == out.retries
    }

    method FromDisconnected(e: Event) returns (next: Option<VpnState>, reason: TransitionReason)
      requires state.Disconnected?
      modifies this`retries
      ensures Chosen(StateRule(old(Value()), e), old(retries), next, reason)
    {
      match e {
        case UserEnable(s) =>
          retries := 0;
          next, reason := Some(Connecting(s)), UserRequested;
        case NmVpnUp(s) =>
          retries := 0;
          next, reason := Some(Connected(s)), ExternalChange;
        case _ => next, reason := None, Unknown;
      }
    }

    method FromConnecting(server: string, e: Event) returns (next: Option<VpnState>, reason: TransitionReason)
      requires state == Connecting(server)
      modifies this`retries
      ensures Chosen(StateRule(old(Value()), e), old(retries), next, reason)
    {
      match e {
        case NmVpnUp(s) =>
          retries := 0;
          next, reason := Some(Connected(s)), VpnEstablished;
        case ConnectionFailed(_) =>
          retries := 0;
          next, reason := Some(Disconnected), TransitionReason.ConnectionFailed;
        case Timeout => next, reason := FailedAttempt(server, TIMEOUT_TEXT);
        case NmVpnDown => next, reason := FailedAttempt(server, FAILURE_TEXT);
        case _ => next, reason := None, Unknown;
      }
    }

    method FailedAttempt(server: string, giveUp: string) returns (next: Option<VpnState>, reason: TransitionReason)
      modifies this`retries
      ensures Chosen(Some(CountAttempt(old(Value()), server, giveUp)), old(retries), next, reason)
    {
      retries := Increment(retries);
      if retries >= maxRetries {
        next, reason := Some(Failed(server, giveUp)), RetriesExhausted;
      } else {
        next, reason := Some(Reconnecting(server, retries, maxRetries)), Retrying;
      }
    }

    method FromConnected(server: string, e: Event) returns (next: Option<VpnState>, reason: TransitionReason)
      requires state == Connected(server)
      modifies this`retries
      ensures Chosen(StateRule(old(Value()), e), old(retries), next, reason)
    {
      match e {
        case HealthDegraded => next, reason := Some(Degraded(server)), HealthCheckFailed;
        case NmVpnDown =>
          retries := 1;
          next, reason := Some(Reconnecting(server, retries, maxRetries)), VpnLost;
        case NmVpnChanged(s) =>
          retries := 0;
          next, reason := Some(Connected(s)), ExternalChange;
        case _ => next, reason := None, Unknown;
      }
    }

    method FromDegraded(server: string, e: Event) returns (next: Option<VpnState>, reason: TransitionReason)
      requires state == Degraded(server)
      modifies this`retries
      ensures Chosen(StateRule(old(Value()), e), old(retries), next, reason)
    {
      match e {
        case HealthDead =>
          retries := 1;
          next, reason := Some(Reconnecting(server, retries, maxRetries)), HealthCheckDead;
        case HealthOk => next, reason := Some(Connected(server)), VpnReestablished;
        case NmVpnDown =>
          retries := 1;
          next, reason := Some(Reconnecting(server, retries, maxRetries)), VpnLost;
        case _ => next, reason := None, Unknown;
      }
    }

    method FromReconnecting(server: string, e: Event) returns (next: Option<VpnState>, reason: TransitionReason)
      requires state.Reconnecting? && state.server == server
      modifies this`retries
      ensures Chosen(StateRule(old(Value()), e), old(retries), next, reason)
    {
      match e {
        case NmVpnUp(s) =>
          retries := 0;
          next, reason := Some(Connected(s)), VpnReestablished;
        case ConnectionFailed(_) =>
          retries := 0;
          next, reason := Some(Disconnected), TransitionReason.ConnectionFailed;
        case Timeout => next, reason := FailedAttempt(server, GaveUpText(maxRetries));
        case _ => next, reason := None, Unknown;
      }
    }

    method FromFailed(e: Event) returns (next: Option<VpnState>, reason: TransitionReason)
      requires state.Failed?
      modifies this`retries
      ensures Chosen(StateRule(old(Value()), e), old(retries), next, reason)
    {
      match e {
        case UserEnable(s) =>
          retries := 0;
          next, reason := Some(Connecting(s)), UserRequested;
        case NmVpnUp(s) =>
          retries := 0;
          next, reason := Some(Connected(s)), ExternalChange;
        case _ => next, reason := None, Unknown;
      }
    }
  }
}
