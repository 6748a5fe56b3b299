/** Which interface state and demotion a node wants this cycle
    (internal/agent/policy.go). */
module Policy {
  import opened Basics
  import opened Config

  datatype Decision = Decision(demotion: int, down: bool)

  datatype Hold = Hold(decision: Decision, streak: int, held: bool)

  predicate HealthierPeer(peers: seq<PeerHealth>, score: int) {
    exists p | p in peers :: p.ok && p.score > score
  }

  /** The decision the policy stands for. */
  function Desired(mode: PolicyMode, score: int, carp: CarpState, peers: seq<PeerHealth>, levels: Levels): Decision {
    match StateFromScore(score)
    case Unhealthy => Decision(levels.unhealthy, true)
    case Degraded => Decision(levels.degraded, false)
    case Healthy =>
      if mode.Preempt? && carp.Master? && HealthierPeer(peers, score)
      then Decision(levels.degraded, false)
      else Decision(levels.healthy, false)
  }

  method EvaluatePolicy(mode: PolicyMode, score: int, carp: CarpState, peers: seq<PeerHealth>, levels: Levels)
    returns (decision: Decision)
    ensures decision == Desired(mode, score, carp, peers, levels)
  {
    var state := StateFromScore(score);
    if state == Unhealthy {
      return Decision(levels.unhealthy, true);
    }
    if state == Degraded {
      return Decision(levels.degraded, false);
    }
    match mode {
      case Sticky =>
        return Decision(levels.healthy, false);
      case Preempt =>
        var hasHealthierPeer := false;
        for n := 0 to |peers|
          invariant !hasHealthierPeer
          invariant forall p | p in peers[..n] :: !(p.ok && p.score > score)
        {
          if peers[n].ok && peers[n].score > score {
            hasHealthierPeer := true;
            break;
          }
        }
        if hasHealthierPeer && carp == Master {
          return Decision(levels.degraded, false);
        }
        return Decision(levels.healthy, false);
    }
  }

  /** Every enabled check passed in full. */
  predicate FullScore(raw: int, max: int) {
    max > 0 && raw >= max
  }

  function ApplyRecoveryHold(mode: PolicyMode, decision: Decision, ifaceWasDown: bool, raw: int, max: int,
                             confirm: int, streak: int, levels: Levels): Hold
  {
    var reclaiming := ifaceWasDown && !decision.down;
    if confirm <= 0 || mode != Preempt || !reclaiming then Hold(decision, 0, false)
    else if FullScore(raw, max) && streak + 1 >= confirm then Hold(decision, streak + 1, false)
    else Hold(Decision(levels.unhealthy, true), if FullScore(raw, max) then streak + 1 else 0, true)
  }
}
