/** A node held back by the recovery gate and the master that hears its
    heartbeat: when does the held node make the master give up the VIP? */
module HeldNode {
  import opened Basics
  import opened Config
  import opened Control
  import Cycle
  import GateRuns
  import GraceRuns
  import Health
  import Kernel
  import KernelRuns
  import Policy
  import StepDown
  import Witness

  /** A heartbeat answered after cycle `i` of run `r`, by a node whose advskew is
      `skew`: it carries the kernel's counter as it stands. */
  ghost predicate Heartbeat(r: Run, i: nat, skew: int, p: PeerHealth)
    requires i < |r.ins|
  {
    && p.ok
    && p.score == r.ins[i].health.score
    && p.advskew == skew
    && p.demotion == r.At(i + 1).kernel.demotion
  }

  ghost predicate AllDistinguishable(r: Run) {
    forall m | 0 <= m < |r.ins| :: KernelRuns.Distinguishable(r.cfg, r.ins[m])
  }

  /** A held node advertises at least the unhealthy level, however it went down. */
  lemma HeldAdvertisesUnhealthy(r: Run, i: nat)
    requires r.Booted() && AllDistinguishable(r) && i < |r.ins| && r.Cycle(i).assessed.held
    ensures r.At(i + 1).kernel.demotion >= r.cfg.Demotions().unhealthy
  {
    KernelRuns.CounterFollowsDecision(r, i);
    assert r.At(i + 1) == r.Cycle(i).node;
  }

  /** A master works with no more than the degraded level. */
  lemma MasterDemotionBound(q: Run, j: nat)
    requires q.Booted() && AllDistinguishable(q) && j < |q.ins| && Cycle.HealthyMaster(q.cfg, q.At(j), q.ins[j])
    ensures q.Cycle(j).moved.actualDemotion <= q.cfg.Demotions().degraded
  {
    hide Step, Attainable;
    KernelRuns.ComparedDemotionIsDesired(q, j);
    Cycle.DecisionExactly(q.cfg, q.At(j), q.ins[j]);
    ValidatedLevels(q.cfg);
  }

  /** While the master's advskew exceeds the held node's by no more than the
      distance between the unhealthy and the degraded level, the held node never
      passes the master's step-down test — even at score 100. */
  lemma HeldNeverOutranks(r: Run, i: nat, q: Run, j: nat, skew: int, p: PeerHealth)
    requires r.Booted() && AllDistinguishable(r) && i < |r.ins| && r.Cycle(i).assessed.held
    requires q.Booted() && AllDistinguishable(q) && j < |q.ins| && Cycle.HealthyMaster(q.cfg, q.At(j), q.ins[j])
    requires q.cfg.Demotions() == r.cfg.Demotions()
    requires Heartbeat(r, i, skew, p)
    requires q.ins[j].skewAtStepDown.GetOr(0) - skew <= r.cfg.Demotions().unhealthy - r.cfg.Demotions().degraded
    ensures !StepDown.Outranks(p, GraceRuns.Mine(q.ins[j], q.Cycle(j)))
  {
    hide Step;
    HeldAdvertisesUnhealthy(r, i);
    MasterDemotionBound(q, j);
  }

  // ----- which gap is exact -----

  /** A run of a node whose advskew is `skew`, among peers that report what agents
      do: scores of at most 100 and effective advskews that are not negative. */
  ghost predicate Plausible(r: Run, skew: int) {
    && skew >= 0
    && r.Booted()
    && forall i | i in r.ins :: PlausibleInput(i, skew)
  }

  ghost predicate PlausibleInput(i: Input, skew: int) {
    && KernelRuns.OnScale(i)
    && (forall p | p in i.peers :: p.Effective() >= 0)
    && (i.skewAtStepDown.Some? ==> i.skewAtStepDown.value == skew)
  }

  lemma PlausibleIsOnScale(r: Run, skew: int)
    requires Plausible(r, skew)
    ensures AllDistinguishable(r)
    ensures forall m | 0 <= m < |r.ins| :: PlausibleInput(r.ins[m], skew)
  {
    hide Run.Booted;
    forall m | 0 <= m < |r.ins|
      ensures PlausibleInput(r.ins[m], skew) && KernelRuns.Distinguishable(r.cfg, r.ins[m])
    {
      assert r.ins[m] in r.ins;
    }
  }

  /** The node can be HEALTHY short of a full score. */
  ghost predicate NearlyFull(cfg: Config) {
    Witness.CanScore(cfg, 80, 99)
  }

  /** A held node can be HEALTHY: short of a full score, or while it counts more
      than one full cycle. */
  ghost predicate FitWhileHeld(cfg: Config) {
    NearlyFull(cfg) || (cfg.RecoveryConfirm() > 1 && cfg.Checks().MaxScore() > 0)
  }

  /** Scores at which a node can be held in good health. */
  ghost predicate HoldableScore(cfg: Config, score: int) {
    80 <= score <= if cfg.RecoveryConfirm() > 1 then 100 else 99
  }

  /** The node can step down at a level below the unhealthy one. Then the hold
      overwrites the kernel's 240; otherwise it never does. */
  ghost predicate CanBeOverwritten(cfg: Config, skew: int) {
    var d := cfg.Demotions();
    skew + d.healthy > 0 || (NearlyFull(cfg) && d.degraded != d.unhealthy)
  }

  /** The least counter of a held node with advskew `skew`. */
  ghost function Floor(cfg: Config, skew: int): int {
    cfg.Demotions().unhealthy + if CanBeOverwritten(cfg, skew) then 0 else Kernel.IFDOWN_DEMOTION
  }

  /** The greatest demotion of a MASTER in good health. */
  ghost function Ceiling(cfg: Config): int {
    if NearlyFull(cfg) then cfg.Demotions().degraded else cfg.Demotions().healthy
  }

  lemma MasterLevel(cfg: Config, n: Node, i: Input, skew: int)
    requires cfg.Valid() && Attainable(cfg, i.health) && PlausibleInput(i, skew)
    requires KernelRuns.Kept(cfg, n)
    requires Cycle.HealthyMaster(cfg, n, i)
    ensures var actual := Step(cfg, n, i).moved.actualDemotion;
      && actual == Step(cfg, n, i).assessed.decision.demotion
      && (actual == cfg.Demotions().healthy || (actual == cfg.Demotions().degraded && NearlyFull(cfg)))
      && i.health.score >= 80
  {
    hide Attainable, Config.Checks, Witness.CanScore;
    KernelRuns.SettleKeepsSync(cfg, n, i);
    if 80 <= i.health.score <= 99 {
      Witness.ScoreShows(cfg, i.health, 80, 99);
    }
  }

  lemma MasterCeiling(q: Run, j: nat, skew: int)
    requires Plausible(q, skew) && j < |q.ins| && Cycle.HealthyMaster(q.cfg, q.At(j), q.ins[j])
    ensures q.Cycle(j).moved.actualDemotion <= Ceiling(q.cfg) && q.cfg.Checks().MaxScore() > 0
  {
    hide Step, NearlyFull, PlausibleInput, Attainable;
    PlausibleIsOnScale(q, skew);
    KernelRuns.RunKeepsSync(q, j);
    ValidatedLevels(q.cfg);
    MasterLevel(q.cfg, q.At(j), q.ins[j], skew);
    assert Attainable(q.cfg, q.ins[j].health);
    Witness.NothingToScore(q.cfg, q.ins[j].health);
  }

  /** A held node in good health is one that can be. */
  lemma HeldAndFit(r: Run, i: nat)
    requires r.Started() && i < |r.ins| && r.Cycle(i).assessed.held && r.ins[i].health.score >= 80
    ensures FitWhileHeld(r.cfg) && HoldableScore(r.cfg, r.ins[i].health.score)
  {
    hide Attainable, Config.Checks, Witness.CanScore;
    var h := r.ins[i].health;
    assert Attainable(r.cfg, h);
    GateRuns.StreakIsHistory(r, i);
    Witness.NothingToScore(r.cfg, h);
    if h.score < 100 {
      Witness.ScoreShows(r.cfg, h, 80, 99);
    }
  }

  /** Down at the unhealthy level with the kernel's 240 still on top. */
  ghost predicate Parked(cfg: Config, n: Node) {
    n.runner.lastIfaceDown ==>
      && n.runner.lastDemotion == cfg.Demotions().unhealthy
      && n.kernel.demotion == cfg.Demotions().unhealthy + Kernel.IFDOWN_DEMOTION
  }

  lemma StaysParked(cfg: Config, n: Node, i: Input, skew: int)
    requires cfg.Valid() && Attainable(cfg, i.health) && PlausibleInput(i, skew) && skew >= 0
    requires KernelRuns.Kept(cfg, n) && Parked(cfg, n) && !CanBeOverwritten(cfg, skew)
    ensures Parked(cfg, Step(cfg, n, i).node)
  {
    hide Attainable, NearlyFull;
    ValidatedLevels(cfg);
    KernelRuns.DecisionLevels(cfg, n, i);
    KernelRuns.SettleKeepsSync(cfg, n, i);
    if Step(cfg, n, i).moved.stepDown {
      MasterLevel(cfg, n, i, skew);
    }
  }

  lemma {:induction false} AlwaysParked(r: Run, i: nat, skew: int)
    requires Plausible(r, skew) && i <= |r.ins| && !CanBeOverwritten(r.cfg, skew)
    ensures Parked(r.cfg, r.At(i))
  {
    hide Step, CanBeOverwritten, PlausibleInput, Attainable;
    if i > 0 {
      AlwaysParked(r, i - 1, skew);
      PlausibleIsOnScale(r, skew);
      KernelRuns.RunKeepsSync(r, i - 1);
      assert Attainable(r.cfg, r.ins[i - 1].health);
      StaysParked(r.cfg, r.At(i - 1), r.ins[i - 1], skew);
    }
  }

  lemma PlausibleRunBooted(r: Run, skew: int)
    requires Plausible(r, skew)
    ensures r.Booted()
  {
  }

  lemma HeldStaysDown(cfg: Config, n: Node, i: Input)
    requires Step(cfg, n, i).assessed.held
    ensures Step(cfg, n, i).node.runner.lastIfaceDown
  {
  }

  lemma HeldFloor(r: Run, i: nat, skew: int)
    requires Plausible(r, skew) && i < |r.ins| && r.Cycle(i).assessed.held
    ensures r.At(i + 1).kernel.demotion >= Floor(r.cfg, skew)
  {
    hide Step, CanBeOverwritten, PlausibleInput, Plausible;
    PlausibleIsOnScale(r, skew);
    PlausibleRunBooted(r, skew);
    HeldStaysDown(r.cfg, r.At(i), r.ins[i]);
    HeldAdvertisesUnhealthy(r, i);
    if !CanBeOverwritten(r.cfg, skew) {
      AlwaysParked(r, i + 1, skew);
    }
  }

  /** In cycle `j` of run `q` a HEALTHY MASTER hears `p`, which a held node sent
      after cycle `i` of run `r`, and `p` passes its step-down test. */
  ghost predicate Overtakes(r: Run, i: nat, skew: int, p: PeerHealth, q: Run, j: nat, masterSkew: int)
    requires i < |r.ins| && j < |q.ins|
  {
    && Plausible(r, skew) && r.Cycle(i).assessed.held
    && Heartbeat(r, i, skew, p)
    && Plausible(q, masterSkew) && Cycle.HealthyMaster(q.cfg, q.At(j), q.ins[j]) && p in q.ins[j].peers
    && StepDown.Outranks(p, GraceRuns.Mine(q.ins[j], q.Cycle(j)))
  }

  /** What a caller can check of the two configurations and advskews. */
  ghost predicate CanOvertake(held: Config, skew: int, master: Config, masterSkew: int) {
    && FitWhileHeld(held)
    && master.Checks().MaxScore() > 0
    && skew + Floor(held, skew) < masterSkew + Ceiling(master)
  }

  lemma OvertakesOnlyIf(r: Run, i: nat, skew: int, p: PeerHealth, q: Run, j: nat, masterSkew: int)
    requires i < |r.ins| && j < |q.ins| && Overtakes(r, i, skew, p, q, j, masterSkew)
    ensures CanOvertake(r.cfg, skew, q.cfg, masterSkew)
  {
    hide Step, Floor, Ceiling, FitWhileHeld;
    HeldFloor(r, i, skew);
    HeldAndFit(r, i);
    MasterCeiling(q, j, masterSkew);
    assert PlausibleInput(q.ins[j], masterSkew);
  }

  // ----- runs that reach it -----

  /** The heartbeat of a node with these figures whose kernel does not preempt. */
  function Beat(score: int, advskew: int, demotion: int): PeerHealth {
    PeerHealth("a", true, score, advskew, demotion, 0, Unclassified)
  }

  lemma ScoredMeansChecks(cfg: Config, probes: Health.Probes)
    requires cfg.Valid() && Witness.Result(cfg, probes).score > 0
    ensures cfg.Checks().MaxScore() > 0 && Attainable(cfg, Witness.Result(cfg, probes))
  {
    hide Health.Evaluate, Config.Checks;
    assert Attainable(cfg, Witness.Result(cfg, probes));
    Witness.NothingToScore(cfg, Witness.Result(cfg, probes));
  }

  /** A MASTER in good health, in its first cycle: it wants the degraded level
      if it hears a higher score, and steps down for `heard[0]`. */
  lemma MasterRun(cfg: Config, skew: int, probes: Health.Probes, heard: seq<PeerHealth>) returns (q: Run)
    requires cfg.Valid() && cfg.mode.Preempt? && cfg.peerEnabled && skew >= 0
    requires forall p | p in heard :: p.score <= 100 && p.Effective() >= 0
    requires Witness.Result(cfg, probes).score >= 80
    requires var d := cfg.Demotions();
      var level := if Policy.HealthierPeer(heard, Witness.Result(cfg, probes).score) then d.degraded else d.healthy;
      |heard| > 0 && StepDown.Outranks(heard[0], skew + level) && heard[0].preempt != 1
    ensures var i := Witness.Reading(0, Witness.Result(cfg, probes), Master, heard, skew);
      q.cfg == cfg && q.ins == [i] && Plausible(q, skew)
    ensures var d, o := cfg.Demotions(), q.Cycle(0);
      && Cycle.HealthyMaster(cfg, q.At(0), q.ins[0])
      && o.moved.stepDown && !o.assessed.decision.down && !o.node.kernel.up
      && o.moved.actualDemotion
        == if Policy.HealthierPeer(heard, Witness.Result(cfg, probes).score) then d.degraded else d.healthy
    ensures var n := q.At(1).runner;
      n.lastDemotion == q.Cycle(0).moved.actualDemotion && n.lastIfaceDown && n.recoveryStreak == 0
  {
    hide Health.Evaluate, Config.Checks;
    ScoredMeansChecks(cfg, probes);
    var i := Witness.Reading(0, Witness.Result(cfg, probes), Master, heard, skew);
    q := Run(cfg, Witness.Fresh(), [i]);
    assert q.At(0) == q.start && heard[0] in heard;
    assert q.At(1) == q.Cycle(0).node;
    assert StepDown.ActNow(heard, skew + q.Cycle(0).moved.actualDemotion);
  }

  /** A node that fails every check goes down parked. */
  lemma FailingRun(cfg: Config, skew: int) returns (r: Run)
    requires cfg.Valid() && skew >= 0 && cfg.Checks().MaxScore() > 0
    ensures r.cfg == cfg && |r.ins| == 1 && Plausible(r, skew)
    ensures r.At(1).runner.lastIfaceDown && r.At(1).runner.recoveryStreak == 0 && Parked(cfg, r.At(1))
  {
    hide Health.Evaluate, Health.Uniform, Config.Checks;
    Witness.ExtremeResults(cfg);
    var i := Witness.Reading(0, Witness.Result(cfg, Witness.Failed(cfg)), Unknown, [], skew);
    r := Run(cfg, Witness.Fresh(), [i]);
    assert r.At(1) == Step(cfg, r.At(0), i).node;
    assert Attainable(cfg, i.health);
  }

  /** A first cycle takes the node down: by a step-down if that leaves a level to
      be overwritten, else by failing every check. */
  lemma TakenDown(cfg: Config, skew: int) returns (r: Run)
    requires cfg.Valid() && cfg.mode.Preempt? && cfg.peerEnabled && skew >= 0 && cfg.Checks().MaxScore() > 0
    ensures r.cfg == cfg && |r.ins| == 1 && Plausible(r, skew)
    ensures r.At(1).runner.lastIfaceDown && r.At(1).runner.recoveryStreak == 0
    ensures if CanBeOverwritten(cfg, skew)
            then r.At(1).runner.lastDemotion != cfg.Demotions().unhealthy
            else Parked(cfg, r.At(1))
  {
    hide Step, Run.At, Health.Evaluate, Witness.Passed, Config.Checks, Witness.CanScore;
    ValidatedLevels(cfg);
    Witness.ExtremeResults(cfg);
    var peer := Beat(100, 0, 0);
    assert peer in [peer];
    if skew + cfg.Demotions().healthy > 0 {
      r := MasterRun(cfg, skew, Witness.Passed(cfg), [peer]);
    } else if CanBeOverwritten(cfg, skew) {
      var probes := Witness.ProbesFor(cfg, 80, 99);
      r := MasterRun(cfg, skew, probes, [peer]);
    } else {
      r := FailingRun(cfg, skew);
    }
  }

  /** A downed node in good health that may not come back yet is held; the hold
      overwrites a level other than the unhealthy one. */
  lemma HeldCycle(cfg: Config, n: Node, i: Input)
    requires cfg.Valid() && cfg.mode.Preempt? && Attainable(cfg, i.health)
    requires n.runner.lastIfaceDown && !n.kernel.up
    requires i.health.score >= 80
    requires i.health.score < 100 || n.runner.recoveryStreak + 1 < cfg.RecoveryConfirm()
    ensures var o, unhealthy := Step(cfg, n, i), cfg.Demotions().unhealthy;
      var counter := if n.runner.lastDemotion != unhealthy then unhealthy else n.kernel.demotion;
      && o.assessed.held && o.assessed.decision.down
      && o.node.kernel == Kernel.State(false, counter)
      && (i.demotionReadable ==> o.moved.actualDemotion == counter)
      && o.node.runner.lastIfaceDown && o.node.runner.lastDemotion == unhealthy
      && o.node.runner.recoveryStreak == if i.health.score == 100 then n.runner.recoveryStreak + 1 else 0
  {
    hide Attainable;
    ValidatedLevels(cfg);
  }

  /** A node that goes down and is then held at a score it can have while held:
      its counter ends at the floor. */
  lemma HeldRun(cfg: Config, skew: int, probes: Health.Probes, heard: seq<PeerHealth>) returns (r: Run)
    requires cfg.Valid() && cfg.mode.Preempt? && cfg.peerEnabled && skew >= 0
    requires forall p | p in heard :: p.score <= 100 && p.Effective() >= 0
    requires HoldableScore(cfg, Witness.Result(cfg, probes).score)
    ensures var i := Witness.Reading(5 * SECOND, Witness.Result(cfg, probes), Unknown, heard, skew);
      r.cfg == cfg && |r.ins| == 2 && r.ins[1] == i && Plausible(r, skew)
    ensures r.Cycle(1).assessed.held && r.Cycle(1).assessed.decision.down
    ensures r.Cycle(1).moved.actualDemotion == Floor(cfg, skew)
    ensures r.At(2) == r.Cycle(1).node && r.At(2).kernel == Kernel.State(false, Floor(cfg, skew))
    ensures r.At(2).runner.lastDemotion == cfg.Demotions().unhealthy && r.At(2).runner.lastIfaceDown
    ensures r.At(2).runner.recoveryStreak == if Witness.Result(cfg, probes).score == 100 then 1 else 0
  {
    hide Step, Health.Evaluate, Config.Checks, CanBeOverwritten, Witness.CanScore;
    ScoredMeansChecks(cfg, probes);
    var first := TakenDown(cfg, skew);
    var i := Witness.Reading(5 * SECOND, Witness.Result(cfg, probes), Unknown, heard, skew);
    r := first.Extended(i);
    ExtendedAgrees(first, i, 1);
    assert r.ins[1] == i && r.At(2) == r.Cycle(1).node;
    assert Attainable(cfg, i.health);
    assert r.ins[0] == first.ins[0] && first.ins[0] in first.ins;
    KernelRuns.CommandsAlternate(r, 1);
    HeldCycle(cfg, r.At(1), i);
  }

  lemma HoldableProbes(cfg: Config) returns (probes: Health.Probes)
    requires FitWhileHeld(cfg)
    ensures HoldableScore(cfg, Witness.Result(cfg, probes).score)
  {
    if NearlyFull(cfg) {
      probes := Witness.ProbesFor(cfg, 80, 99);
    } else {
      probes := Witness.Passed(cfg);
      Witness.ExtremeResults(cfg);
    }
  }

  /** Two such runs, whenever they are possible: the held node's last cycle and a
      MASTER's first, which steps down. */
  lemma HeldCanOutrank(held: Config, skew: int, master: Config, masterSkew: int)
    returns (r: Run, p: PeerHealth, q: Run)
    requires held.Valid() && held.mode.Preempt? && held.peerEnabled && skew >= 0
    requires master.Valid() && master.mode.Preempt? && master.peerEnabled && masterSkew >= 0
    requires CanOvertake(held, skew, master, masterSkew)
    ensures r.cfg == held && q.cfg == master && |r.ins| == 2 && |q.ins| == 1
    ensures Overtakes(r, 1, skew, p, q, 0, masterSkew) && q.Cycle(0).moved.stepDown
  {
    hide Step, Health.Evaluate, Config.Checks, Witness.CanScore, Witness.Passed, Run.At, Floor;
    ValidatedLevels(held);
    ValidatedLevels(master);
    var d := master.Demotions();
    var heldProbes := HoldableProbes(held);
    r := HeldRun(held, skew, heldProbes, []);
    p := Beat(Witness.Result(held, heldProbes).score, skew, Floor(held, skew));
    FloorIsPositive(held, skew);
    Witness.ExtremeResults(master);
    var probes, heard := Witness.Passed(master), [p];
    if NearlyFull(master) {
      probes := Witness.ProbesFor(master, 80, 99);
      heard := [p, Beat(100, masterSkew, d.degraded)];
      assert heard[1] in heard;
    }
    q := MasterRun(master, masterSkew, probes, heard);
    assert heard[0] in heard;
  }

  lemma FloorIsPositive(cfg: Config, skew: int)
    requires cfg.Valid()
    ensures Floor(cfg, skew) > 0
  {
    ValidatedLevels(cfg);
  }

  /** The gap is exact, for every two valid preempt configurations and advskews:
      a MASTER can hear a held node whose report passes its step-down test if and
      only if the held node can be in good health and the least counter it can
      have leaves it below the greatest demotion of the MASTER. */
  lemma OvertakesExactlyWhen(held: Config, skew: int, master: Config, masterSkew: int)
    requires held.Valid() && held.mode.Preempt? && held.peerEnabled && skew >= 0
    requires master.Valid() && master.mode.Preempt? && master.peerEnabled && masterSkew >= 0
    ensures (exists r: Run, i: nat, p: PeerHealth, q: Run, j: nat ::
              && r.cfg == held && q.cfg == master && i < |r.ins| && j < |q.ins|
              && Overtakes(r, i, skew, p, q, j, masterSkew))
      <==> CanOvertake(held, skew, master, masterSkew)
  {
    hide CanOvertake, Overtakes;
    if CanOvertake(held, skew, master, masterSkew) {
      var r, p, q := HeldCanOutrank(held, skew, master, masterSkew);
    }
    if r: Run, i: nat, p: PeerHealth, q: Run, j: nat :|
      && r.cfg == held && q.cfg == master && i < |r.ins| && j < |q.ins|
      && Overtakes(r, i, skew, p, q, j, masterSkew) {
      OvertakesOnlyIf(r, i, skew, p, q, j, masterSkew);
    }
  }
}
