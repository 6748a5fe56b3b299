/** The values every part of the agent exchanges: health states, CARP roles and
    the heartbeat report of a peer. */
module Basics {

  datatype Option<+T> = None | Some(value: T) {

    /** The value held, or `default` when there is none. */
    function GetOr(default: T): T {
      match this
      case Some(v) => v
      case None => default
    }
  }

  datatype State = Healthy | Degraded | Unhealthy

  const HEALTHY_SCORE := 80
  const DEGRADED_SCORE := 40

  function StateFromScore(score: int): State {
    if score >= HEALTHY_SCORE then Healthy
    else if score >= DEGRADED_SCORE then Degraded
    else Unhealthy
  }

  datatype CarpState = Unknown | Master | Backup

  datatype PolicyMode = Sticky | Preempt

  /** How a failed heartbeat was classified by the direct probes. */
  datatype Severity = Unclassified | HostDown | AgentOnly | Critical

  /** One entry of the list the peer check returns each cycle. */
  datatype PeerHealth = PeerHealth(
    ip: string,
    ok: bool,
    score: int,
    advskew: int,
    demotion: int,
    preempt: int,
    severity: Severity)
  {
    function Effective(): int { advskew + demotion }

    /** Reachable and at or above the HEALTHY threshold. */
    predicate Fit() { ok && score >= HEALTHY_SCORE }
  }

  // Durations and instants are nanoseconds, as in Go's time package.
  const SECOND: int := 1_000_000_000
}
