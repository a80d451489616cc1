/** The state, event and reason enumerations of the connection state machine. */
module VpnTypes {
  import opened Basics

  datatype VpnState =
    | Disconnected
    | Connecting(server: string)
    | Connected(server: string)
    | Degraded(server: string)
    | Reconnecting(server: string, attempt: U32, maxAttempts: U32)
    | Failed(server: string, reason: string)
  {
    /** The tunnel is reported up, healthy or not. */
    predicate IsUp() {
      Connected? || Degraded?
    }

    /** A connection attempt is under way. */
    predicate IsBusy() {
      Connecting? || Reconnecting?
    }

    function ServerName(): Option<string> {
      if Disconnected? then None else Some(server)
    }
  }

  datatype Event =
    | UserEnable(server: string)
    | UserDisable
    | NmVpnUp(server: string)
    | NmVpnDown
    | NmVpnChanged(server: string)
    | NmDeviceChanged
    | HealthOk
    | HealthDegraded
    | HealthDead
    | Sleep
    | Wake
    | Timeout
    | ConnectionFailed(reason: string)
    | EndpointFailed(reason: string)

  datatype TransitionReason =
    | UserRequested
    | VpnEstablished
    | VpnLost
    | VpnReestablished
    | HealthCheckFailed
    | HealthCheckDead
    | Timeout
    | Retrying
    | RetriesExhausted
    | ConnectionFailed
    | WakeResync
    | ExternalChange
    | Unknown
}
