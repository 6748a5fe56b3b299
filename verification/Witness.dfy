/** Inputs for showing that something does happen. */
module Witness {
  import opened Basics
  import opened Config
  import opened Control
  import Health
  import Kernel

  /** The health result of a cycle in which the probes are answered so. */
  ghost function Result(cfg: Config, probes: Health.Probes): Health.HealthResult {
    Health.Evaluate(cfg.Checks(), probes)
  }

  ghost function Passed(cfg: Config): Health.Probes { Health.Uniform(cfg.Checks(), Health.PASSED) }

  ghost function Failed(cfg: Config): Health.Probes { Health.Uniform(cfg.Checks(), Health.FAILED) }

  lemma ExtremeResults(cfg: Config)
    requires cfg.Checks().MaxScore() > 0
    ensures var h := Result(cfg, Passed(cfg)); h.score == 100 && h.raw == h.max == cfg.Checks().MaxScore()
    ensures Result(cfg, Failed(cfg)).score == 0
  {
    hide Health.Uniform;
    Health.AllOrNothing(cfg.Checks());
  }

  /** Some answers give the agent a score from `low` to `high`. */
  ghost predicate CanScore(cfg: Config, low: int, high: int) {
    Health.CanScore(cfg.Checks(), low, high)
  }

  /** A result the checks can return shows which scores they can give. */
  lemma ScoreShows(cfg: Config, h: Health.HealthResult, low: int, high: int)
    requires Attainable(cfg, h) && low <= h.score <= high
    ensures CanScore(cfg, low, high)
  {
    hide Health.Evaluate;
  }

  lemma ProbesFor(cfg: Config, low: int, high: int) returns (probes: Health.Probes)
    requires CanScore(cfg, low, high)
    ensures low <= Result(cfg, probes).score <= high
  {
    hide Health.Evaluate;
    probes :| low <= Health.Evaluate(cfg.Checks(), probes).score <= high;
  }

  /** With every check disabled the score is always 0. */
  lemma NothingToScore(cfg: Config, h: Health.HealthResult)
    requires cfg.Valid() && Attainable(cfg, h) && h.score > 0
    ensures h.max == cfg.Checks().MaxScore() > 0
  {
  }

  /** A cycle in which every read succeeds and the role does not move. */
  function Reading(now: int, health: Health.HealthResult, carp: CarpState, peers: seq<PeerHealth>, skew: int): Input {
    Input(now, health, Some(carp), peers, true, Some(skew), Some(carp), Some(skew), Some(skew))
  }

  /** An agent just started on a node whose interface is up, with demotion 0. */
  function Fresh(): Node {
    Node(NewRunner(Healthy), Kernel.State(true, 0))
  }
}
