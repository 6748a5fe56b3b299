/** When a node that comes back up loses track of its demotion counter: the run
    theorems take peer scores to be on the 0..100 scale; this is what a report
    off that scale can do. */
module CounterLoss {
  import opened Basics
  import opened Config
  import opened Control
  import opened HeldNode
  import Health
  import Kernel
  import KernelRuns
  import Policy
  import Witness

  /** After a plausible run the node comes up on `next`, whatever is reported
      there, and does not land on the level it wants. */
  ghost predicate LosesCounter(r: Run, skew: int, next: Input) {
    var n := r.At(|r.ins|);
    var d := Step(r.cfg, n, next).assessed.decision;
    && Plausible(r, skew) && Attainable(r.cfg, next.health)
    && n.runner.lastIfaceDown && !d.down
    && Settled(n, d).demotion != d.demotion
  }

  ghost predicate CanLoseCounter(cfg: Config, skew: int) {
    var d := cfg.Demotions();
    d.degraded == d.unhealthy && skew + d.healthy > 0 && cfg.Checks().MaxScore() > 0
  }

  lemma LosesOnlyIf(r: Run, skew: int, next: Input)
    requires r.cfg.mode.Preempt? && LosesCounter(r, skew, next)
    ensures CanLoseCounter(r.cfg, skew) && !KernelRuns.OnScale(next)
  {
    hide Step, Attainable, Witness.CanScore, Config.Checks, PlausibleInput;
    var n, all := |r.ins|, r.Extended(next);
    PlausibleIsOnScale(r, skew);
    ExtendedAgrees(r, next, n);
    assert forall m | 0 <= m < n :: all.ins[m] == r.ins[m];
    assert Attainable(r.cfg, next.health) && all.Booted();
    KernelRuns.RunKeepsSync(r, n);
    KernelRuns.LandsOnDesiredIff(all, n);
    ValidatedLevels(r.cfg);
    ComesBackFull(r.cfg, r.At(n), next);
    Witness.NothingToScore(r.cfg, next.health);
    if !CanBeOverwritten(r.cfg, skew) {
      AlwaysParked(r, n, skew);
    }
  }

  lemma ComesBackFull(cfg: Config, n: Node, i: Input)
    requires cfg.Valid() && i.health.Sound() && cfg.mode.Preempt? && n.runner.lastIfaceDown
    requires !Step(cfg, n, i).assessed.decision.down
    ensures var d := Step(cfg, n, i).assessed.decision;
      && i.health.score == 100
      && (d.demotion == cfg.Demotions().healthy || d.demotion == cfg.Demotions().degraded)
      && (KernelRuns.OnScale(i) ==> d.demotion == cfg.Demotions().healthy)
  {
    KernelRuns.ComingBackIsFull(cfg, n, i);
  }

  /** Down with a counter that was overwritten with the unhealthy level, `streak`
      full cycles into the gate. */
  ghost predicate Overwritten(cfg: Config, n: Node, streak: int) {
    && n.runner.lastIfaceDown && n.runner.recoveryStreak == streak
    && n.runner.lastDemotion == n.kernel.demotion == cfg.Demotions().unhealthy
  }

  lemma OverwrittenStep(cfg: Config, n: Node, i: Input)
    requires cfg.Valid() && cfg.mode.Preempt? && Attainable(cfg, i.health)
    requires n.runner.lastIfaceDown && KernelRuns.Kept(cfg, n)
    ensures var n' := Step(cfg, n, i).node;
      && (i.health.score == 0 && n.runner.lastDemotion != cfg.Demotions().unhealthy ==> Overwritten(cfg, n', 0))
      && forall k | Overwritten(cfg, n, k) && i.health.score == 100 && k + 1 < cfg.RecoveryConfirm() ::
          Overwritten(cfg, n', k + 1)
  {
    hide Attainable;
    ValidatedLevels(cfg);
  }

  /** It steps down, fails every check once, and then passes all of them for
      `streak` cycles. */
  lemma {:induction false} CountingRun(cfg: Config, skew: int, streak: nat) returns (r: Run)
    requires cfg.Valid() && cfg.mode.Preempt? && cfg.peerEnabled && skew >= 0
    requires skew + cfg.Demotions().healthy > 0 && cfg.Checks().MaxScore() > 0
    requires streak < cfg.RecoveryConfirm()
    ensures r.cfg == cfg && Plausible(r, skew) && Overwritten(cfg, r.At(|r.ins|), streak)
  {
    hide Step, Run.At, Health.Evaluate, Witness.Passed, Witness.Failed, Config.Checks, Witness.CanScore;
    ValidatedLevels(cfg);
    Witness.ExtremeResults(cfg);
    var before, probes;
    if streak == 0 {
      before := TakenDown(cfg, skew);
      probes := Witness.Failed(cfg);
    } else {
      before := CountingRun(cfg, skew, streak - 1);
      probes := Witness.Passed(cfg);
    }
    var n, i := |before.ins|, Witness.Reading(0, Witness.Result(cfg, probes), Unknown, [], skew);
    r := before.Extended(i);
    PlausibleIsOnScale(before, skew);
    KernelRuns.RunKeepsSync(before, n);
    assert Attainable(cfg, i.health);
    OverwrittenStep(cfg, before.At(n), i);
    ExtendedAgrees(before, i, n);
    OneMore(before, i);
  }

  lemma OneMore(r: Run, i: Input)
    ensures r.Extended(i).At(|r.ins| + 1) == Step(r.cfg, r.At(|r.ins|), i).node
  {
    ExtendedAgrees(r, i, |r.ins|);
  }

  lemma LostOnOffScale(cfg: Config, n: Node, i: Input)
    requires cfg.Valid() && cfg.mode.Preempt? && cfg.peerEnabled && Attainable(cfg, i.health)
    requires cfg.Demotions().degraded == cfg.Demotions().unhealthy
    requires KernelRuns.Kept(cfg, n) && Overwritten(cfg, n, cfg.RecoveryConfirm() - 1)
    requires i.health.score == 100 && i.carpRead == Some(Master) && i.skewAtStepDown.Some? && i.demotionReadable
    requires i.peers == [Beat(101, i.skewAtStepDown.value + cfg.Demotions().degraded, 0)]
    ensures var o, wanted := Step(cfg, n, i), cfg.Demotions().degraded;
      && o.assessed.decision == Policy.Decision(wanted, false)
      && Settled(n, o.assessed.decision).demotion == wanted - Kernel.IFDOWN_DEMOTION
      && o.node.kernel == Kernel.State(true, wanted - Kernel.IFDOWN_DEMOTION)
  {
    hide Attainable;
    assert i.peers[0] in i.peers;
  }

  /** A counter is lost: on the last cycle of the gate a node that reads MASTER
      while still down hears a score of 101, wants the degraded level and ends
      240 below it. */
  lemma OffScaleReportIsLost(cfg: Config, skew: int) returns (r: Run, next: Input)
    requires cfg.Valid() && cfg.mode.Preempt? && cfg.peerEnabled && skew >= 0
    requires CanLoseCounter(cfg, skew)
    ensures r.cfg == cfg && LosesCounter(r, skew, next)
    ensures Step(cfg, r.At(|r.ins|), next).node.kernel
      == Kernel.State(true, cfg.Demotions().degraded - Kernel.IFDOWN_DEMOTION)
  {
    hide Step, Run.At, Health.Evaluate, Witness.Passed, Config.Checks, Witness.CanScore;
    ValidatedLevels(cfg);
    Witness.ExtremeResults(cfg);
    r := CountingRun(cfg, skew, cfg.RecoveryConfirm() - 1);
    PlausibleIsOnScale(r, skew);
    KernelRuns.RunKeepsSync(r, |r.ins|);
    next := Witness.Reading(0, Witness.Result(cfg, Witness.Passed(cfg)), Master,
                            [Beat(101, skew + cfg.Demotions().degraded, 0)], skew);
    assert Attainable(cfg, next.health);
    LostOnOffScale(cfg, r.At(|r.ins|), next);
  }

  /** Where the cycles before were plausible, a node that comes back can miss its
      level exactly when its degraded and unhealthy levels coincide, it can step
      down at its healthy level, and some check is enabled. */
  lemma CounterLostIff(cfg: Config, skew: int)
    requires cfg.Valid() && cfg.mode.Preempt? && cfg.peerEnabled && skew >= 0
    ensures (exists r: Run, next: Input :: r.cfg == cfg && LosesCounter(r, skew, next)) <==> CanLoseCounter(cfg, skew)
  {
    hide CanLoseCounter, LosesCounter;
    if CanLoseCounter(cfg, skew) {
      var r, next := OffScaleReportIsLost(cfg, skew);
    }
    if r: Run, next: Input :| r.cfg == cfg && LosesCounter(r, skew, next) {
      LosesOnlyIf(r, skew, next);
    }
  }
}
