/** Exactly when simultaneous step-downs can leave a cluster without service. */
module Service {
  import opened Basics
  import opened Config
  import opened Control
  import opened Cluster
  import Health
  import HeldNode
  import KernelRuns
  import Policy
  import Witness

  ghost predicate Ends(r: Run, m: Member) {
    && |r.ins| > 0
    && r.cfg == m.cfg && r.At(|r.ins| - 1) == m.node && r.ins[|r.ins| - 1] == m.input
  }

  /** The member is in the last cycle of a plausible run. */
  ghost predicate Lived(m: Member) {
    exists r: Run :: HeldNode.Plausible(r, m.advskew) && Ends(r, m)
  }

  /** A round of agents that share the configuration `cfg`, have advskews from
      `skews` and can read their own counter, in which heartbeats tell the truth
      and somebody is serving. */
  ghost predicate Possible(cfg: Config, skews: set<int>, round: Round) {
    && (forall m | m in round :: m.cfg == cfg && m.advskew in skews && Lived(m) && m.input.demotionReadable)
    && Truthful(round)
    && exists k: nat | k < |round| :: Serving(round[k])
  }

  ghost predicate KeepsServing(round: Round) {
    exists k: nat | k < |round| :: Serving(round[k]) && round[k].Outcome().node.kernel.up
  }

  /** Two scores the checks can give, both HEALTHY, the greater of which a held
      node can have. */
  ghost predicate Outscores(cfg: Config, low: int, high: int) {
    && 80 <= low < high
    && Witness.CanScore(cfg, low, low) && Witness.CanScore(cfg, high, high)
    && HeldNode.HoldableScore(cfg, high)
  }

  /** The greatest demotion of the serving member with the best score: only a
      held member can score more than it. */
  ghost function BestCeiling(cfg: Config): int {
    if exists low, high :: Outscores(cfg, low, high) then cfg.Demotions().degraded else cfg.Demotions().healthy
  }

  /** What can be checked of a configuration and two advskews. */
  ghost predicate CanEmpty(cfg: Config, skew: int, masterSkew: int) {
    && HeldNode.FitWhileHeld(cfg)
    && skew + HeldNode.Floor(cfg, skew) < masterSkew + BestCeiling(cfg)
  }

  lemma LivedRun(m: Member) returns (r: Run)
    requires Lived(m)
    ensures HeldNode.Plausible(r, m.advskew) && Ends(r, m)
    ensures m.cfg.Valid() && Attainable(m.cfg, m.input.health) && KernelRuns.Kept(m.cfg, m.node)
    ensures HeldNode.PlausibleInput(m.input, m.advskew) && m.advskew >= 0
    ensures m.Outcome() == r.Cycle(|r.ins| - 1)
  {
    hide Step, Attainable, HeldNode.PlausibleInput;
    r :| HeldNode.Plausible(r, m.advskew) && Ends(r, m);
    HeldNode.PlausibleIsOnScale(r, m.advskew);
    KernelRuns.RunKeepsSync(r, |r.ins| - 1);
    assert m.input in r.ins;
  }

  lemma FitDownIsHeld(m: Member)
    requires m.Fit() && !Serving(m)
    ensures m.Outcome().assessed.held
    ensures m.input.demotionReadable ==> m.Outcome().moved.actualDemotion == m.Outcome().node.kernel.demotion
  {
  }

  /** A healthy member whose interface is to be down is held, no lower than the
      floor. */
  lemma FitButDown(m: Member)
    requires Lived(m) && m.input.demotionReadable && m.Fit() && !Serving(m)
    ensures m.advskew + HeldNode.Floor(m.cfg, m.advskew) <= m.Own()
    ensures HeldNode.FitWhileHeld(m.cfg) && HeldNode.HoldableScore(m.cfg, m.input.health.score)
  {
    hide Step, Attainable, HeldNode.Plausible, HeldNode.Floor, HeldNode.FitWhileHeld, HeldNode.PlausibleInput;
    var r := LivedRun(m);
    var i := |r.ins| - 1;
    HeldNode.PlausibleRunBooted(r, m.advskew);
    FitDownIsHeld(m);
    HeldNode.HeldAndFit(r, i);
    HeldNode.HeldFloor(r, i, m.advskew);
    assert r.At(i + 1) == m.Outcome().node;
  }

  /** A serving member that works with more than the healthy level hears a higher
      score. */
  lemma ServingLevel(m: Member)
    requires m.cfg.Valid() && m.input.health.Sound() && Serving(m)
    requires KernelRuns.Kept(m.cfg, m.node) && KernelRuns.Distinguishable(m.cfg, m.input)
    ensures var o, d := m.Outcome(), m.cfg.Demotions();
      || o.moved.actualDemotion == d.healthy
      || (o.moved.actualDemotion == d.degraded && Policy.HealthierPeer(o.assessed.peers, m.input.health.score))
    ensures m.Outcome().node.kernel.up == !m.Outcome().moved.stepDown
  {
    KernelRuns.SettleKeepsSync(m.cfg, m.node, m.input);
  }

  lemma {:induction false} BestServing(round: Round, n: nat) returns (k: nat)
    requires n <= |round|
    requires exists j: nat | j < n :: Serving(round[j])
    ensures k < n && Serving(round[k])
    ensures forall j: nat | j < n && Serving(round[j]) :: round[j].input.health.score <= round[k].input.health.score
  {
    hide Step;
    var last := n - 1;
    if exists j: nat | j < last :: Serving(round[j]) {
      k := BestServing(round, last);
      if Serving(round[last]) && round[last].input.health.score > round[k].input.health.score {
        k := last;
      }
    } else {
      k := last;
    }
  }

  /** Only a held member can score more than the best serving one. */
  lemma OutscoredByHeld(cfg: Config, skews: set<int>, round: Round, k: nat)
    requires cfg.Valid() && Possible(cfg, skews, round)
    requires k < |round| && Best(round, k)
    requires Policy.HealthierPeer(round[k].Outcome().assessed.peers, round[k].input.health.score)
    ensures BestCeiling(cfg) == cfg.Demotions().degraded
  {
    hide Step, Attainable, Lived, HeldNode.HoldableScore, HeldNode.Floor, HeldNode.FitWhileHeld, Health.Evaluate;
    var m := round[k];
    var p :| p in m.Outcome().assessed.peers && p.ok && p.score > m.input.health.score;
    var j: nat :| j < |round| && j != k && Reports(p, round[j]);
    var other := round[j];
    assert m in round && other in round && !Serving(other);
    FitButDown(other);
    var low, high := m.input.health.score, other.input.health.score;
    ScoreCanBe(m);
    ScoreCanBe(other);
    assert Outscores(cfg, low, high);
  }

  ghost predicate Best(round: Round, k: nat)
    requires k < |round|
  {
    && Serving(round[k])
    && forall j: nat | j < |round| && Serving(round[j]) ::
        round[j].input.health.score <= round[k].input.health.score
  }

  /** The serving member with the best score works with no more than that
      ceiling. */
  lemma BestIsBounded(cfg: Config, skews: set<int>, round: Round, k: nat)
    requires cfg.Valid() && Possible(cfg, skews, round) && k < |round| && Best(round, k)
    ensures round[k].Outcome().moved.actualDemotion <= BestCeiling(cfg)
    ensures round[k].Outcome().node.kernel.up == !round[k].Outcome().moved.stepDown
  {
    hide Step, Attainable, Lived, KernelRuns.Kept, HeldNode.PlausibleInput, Truthful, BestCeiling, Policy.HealthierPeer;
    var m := round[k];
    assert m in round;
    LivedLevel(m);
    ValidatedLevels(cfg);
    BestCeilingIsLevel(cfg);
    if Policy.HealthierPeer(m.Outcome().assessed.peers, m.input.health.score) {
      OutscoredByHeld(cfg, skews, round, k);
    }
  }

  lemma BestCeilingIsLevel(cfg: Config)
    ensures BestCeiling(cfg) == cfg.Demotions().degraded || BestCeiling(cfg) == cfg.Demotions().healthy
  {
  }

  lemma LivedLevel(m: Member)
    requires Lived(m) && Serving(m)
    ensures var o, d := m.Outcome(), m.cfg.Demotions();
      || o.moved.actualDemotion == d.healthy
      || (o.moved.actualDemotion == d.degraded && Policy.HealthierPeer(o.assessed.peers, m.input.health.score))
    ensures m.Outcome().node.kernel.up == !m.Outcome().moved.stepDown
  {
    hide Step, KernelRuns.Kept, HeldNode.PlausibleInput;
    var r := LivedRun(m);
    PlausibleHere(m);
    ServingLevel(m);
  }

  lemma PlausibleHere(m: Member)
    requires HeldNode.PlausibleInput(m.input, m.advskew)
    ensures KernelRuns.Distinguishable(m.cfg, m.input)
  {
  }

  lemma ScoreCanBe(m: Member)
    requires Lived(m)
    ensures Witness.CanScore(m.cfg, m.input.health.score, m.input.health.score)
  {
    hide Step, Attainable, Witness.CanScore;
    var r := LivedRun(m);
    Witness.ScoreShows(m.cfg, m.input.health, m.input.health.score, m.input.health.score);
  }

  lemma KeepsServingIf(cfg: Config, skews: set<int>, round: Round)
    requires cfg.Valid() && Possible(cfg, skews, round)
    requires forall s, m | s in skews && m in skews :: !CanEmpty(cfg, s, m)
    ensures KeepsServing(round)
  {
    hide Step, Lived, HeldNode.Floor, HeldNode.FitWhileHeld, BestCeiling, Truthful, KernelRuns.Kept;
    var best := BestServing(round, |round|);
    BestIsBounded(cfg, skews, round, best);
    var least := LeastFit(round, |round|);
    assert round[best] in round && round[least] in round;
    if Serving(round[least]) {
      LeastNeverStepsDown(round, least);
      LivedLevel(round[least]);
    } else {
      FitButDown(round[least]);
      assert !CanEmpty(cfg, round[least].advskew, round[best].advskew);
      LeastNeverStepsDown(round, best);
    }
  }

  lemma EmptyingProbes(cfg: Config) returns (low: Health.Probes, high: Health.Probes)
    requires HeldNode.FitWhileHeld(cfg) && cfg.Valid()
    ensures Witness.Result(cfg, low).score >= 80 && HeldNode.HoldableScore(cfg, Witness.Result(cfg, high).score)
    ensures if Witness.Result(cfg, low).score < Witness.Result(cfg, high).score
            then BestCeiling(cfg) == cfg.Demotions().degraded
            else BestCeiling(cfg) == cfg.Demotions().healthy
  {
    hide Health.Evaluate, Config.Checks, Witness.CanScore, Witness.Passed;
    if best, held :| Outscores(cfg, best, held) {
      low := Witness.ProbesFor(cfg, best, best);
      high := Witness.ProbesFor(cfg, held, held);
    } else {
      high := HeldNode.HoldableProbes(cfg);
      HeldNode.ScoredMeansChecks(cfg, high);
      Witness.ExtremeResults(cfg);
      low := Witness.Passed(cfg);
    }
  }

  /** Two members that hear exactly each other's reports. */
  lemma HearEachOther(round: Round, heard: PeerHealth, told: PeerHealth)
    requires |round| == 2 && round[0].ReadsItself() && round[1].ReadsItself()
    requires round[0].Outcome().assessed.peers == [heard] && Reports(heard, round[1])
    requires round[1].Outcome().assessed.peers == [told] && Reports(told, round[0])
    ensures Truthful(round) && Connected(round)
  {
    hide Step;
    assert heard in [heard] && told in [told];
    assert Heard(round, 0, 1) && Heard(round, 1, 0);
  }

  lemma EndsPlausibly(r: Run, m: Member)
    requires HeldNode.Plausible(r, m.advskew) && Ends(r, m)
    ensures Lived(m)
  {
  }

  /** A held member and a MASTER, each hearing the other, in a round that leaves
      no interface up. */
  lemma RoundCanEmpty(cfg: Config, skew: int, masterSkew: int) returns (round: Round)
    requires cfg.Valid() && cfg.mode.Preempt? && cfg.peerEnabled && skew >= 0 && masterSkew >= 0
    requires CanEmpty(cfg, skew, masterSkew)
    ensures |round| == 2 && round[0].advskew == skew && round[1].advskew == masterSkew
    ensures Possible(cfg, {skew, masterSkew}, round) && Connected(round)
    ensures forall m | m in round :: !m.Outcome().node.kernel.up
  {
    hide Step, Run.At, HeldNode.Plausible, HeldNode.Floor, HeldNode.FitWhileHeld, BestCeiling, Health.Evaluate;
    hide Lived, Truthful, Connected;
    ValidatedLevels(cfg);
    HeldNode.FloorIsPositive(cfg, skew);
    var low, high := EmptyingProbes(cfg);
    var heard := HeldNode.Beat(Witness.Result(cfg, low).score, masterSkew, BestCeiling(cfg));
    var told := HeldNode.Beat(Witness.Result(cfg, high).score, skew, HeldNode.Floor(cfg, skew));
    ScoresAtMost(cfg, low);
    ScoresAtMost(cfg, high);
    assert told in [told];
    var r := HeldNode.HeldRun(cfg, skew, high, [heard]);
    var q := HeldNode.MasterRun(cfg, masterSkew, low, [told]);
    round := [Member(cfg, r.At(1), r.ins[1], skew), Member(cfg, q.At(0), q.ins[0], masterSkew)];
    assert round[0].Outcome() == r.Cycle(1) && round[1].Outcome() == q.Cycle(0);
    EndsPlausibly(r, round[0]);
    EndsPlausibly(q, round[1]);
    PeersHeard(round[0]);
    PeersHeard(round[1]);
    HearEachOther(round, heard, told);
    assert Serving(round[1]);
  }

  lemma ScoresAtMost(cfg: Config, probes: Health.Probes)
    requires cfg.Valid()
    ensures Witness.Result(cfg, probes).score <= 100
  {
    assert Attainable(cfg, Witness.Result(cfg, probes));
  }

  /** Exactly when step-downs can leave a cluster without service: in a cluster
      that shares a preempt configuration, of any size and with advskews from a
      given set, every possible round keeps somebody serving if and only if for no
      two of those advskews a held node can be below the best serving one. */
  lemma KeepsServingIff(cfg: Config, skews: set<int>)
    requires cfg.Valid() && cfg.mode.Preempt? && cfg.peerEnabled
    requires forall s | s in skews :: s >= 0
    ensures (forall round: Round | Possible(cfg, skews, round) :: KeepsServing(round))
      <==> forall s, m | s in skews && m in skews :: !CanEmpty(cfg, s, m)
  {
    hide Possible, CanEmpty;
    if forall s, m | s in skews && m in skews :: !CanEmpty(cfg, s, m) {
      forall round: Round | Possible(cfg, skews, round)
        ensures KeepsServing(round)
      {
        KeepsServingIf(cfg, skews, round);
      }
    } else {
      var s, m :| s in skews && m in skews && CanEmpty(cfg, s, m);
      var round := RoundCanEmpty(cfg, s, m);
      PossibleWithMore(cfg, {s, m}, skews, round);
      assert forall k: nat | k < |round| :: round[k] in round;
    }
  }

  lemma PossibleWithMore(cfg: Config, some: set<int>, all: set<int>, round: Round)
    requires Possible(cfg, some, round) && some <= all
    ensures Possible(cfg, all, round)
  {
  }
}
