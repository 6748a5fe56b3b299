/** What one cycle decides and reports, said of its inputs and of the fields the
    agent carries over, in the configuration's own values. */
module Cycle {
  import opened Basics
  import opened Config
  import opened Control

  /** Down below 40, or as a preempt node that was down and has not now completed
      its full cycles. Up, the healthy level is taken from score 80 on, unless a
      preempt MASTER hears a better score. */
  lemma DecisionExactly(cfg: Config, n: Node, i: Input)
    requires cfg.Valid() && i.health.Sound()
    ensures var d := Step(cfg, n, i).assessed.decision;
      var confirm := if cfg.recoveryConfirm > 0 then cfg.recoveryConfirm else 3;
      var full := i.health.max > 0 && i.health.raw == i.health.max;
      var betterPeer := cfg.mode.Preempt? && cfg.peerEnabled && i.carpRead == Some(Master)
        && exists p | p in i.peers :: p.ok && p.score > i.health.score;
      && (d.down <==>
          || i.health.score < 40
          || (cfg.mode.Preempt? && n.runner.lastIfaceDown && !(full && n.runner.recoveryStreak + 1 >= confirm)))
      && d.demotion
        == if d.down then cfg.demotion.unhealthy
           else if i.health.score >= 80 && !betterPeer then cfg.demotion.healthy
           else if cfg.demotion.degraded > 0 then cfg.demotion.degraded
           else 50
  {
  }

  /** For a node that is up and HEALTHY, the degraded level is for a MASTER that
      hears a better score, and for nobody else. */
  lemma YieldsExactlyWhen(cfg: Config, n: Node, i: Input)
    requires cfg.Valid() && i.health.Sound()
    requires i.health.score >= 80 && !Step(cfg, n, i).assessed.decision.down
    requires cfg.demotion.healthy != cfg.Demotions().degraded
    ensures Step(cfg, n, i).assessed.decision.demotion == cfg.Demotions().degraded
      <==>
      && cfg.mode.Preempt? && cfg.peerEnabled && i.carpRead == Some(Master)
      && exists p | p in i.peers :: p.ok && p.score > i.health.score
  {
    hide Step;
    DecisionExactly(cfg, n, i);
  }

  /** A node counts as UNHEALTHY exactly when its interface is to be down, the
      hold included; up, 80 separates HEALTHY from DEGRADED. */
  lemma StateExactly(cfg: Config, n: Node, i: Input)
    requires cfg.Valid() && i.health.Sound()
    ensures var a := Step(cfg, n, i).assessed;
      && (a.state.Unhealthy? <==> a.decision.down)
      && (a.state.Healthy? <==> !a.decision.down && i.health.score >= 80)
      && (a.held <==> a.decision.down && i.health.score >= 40)
  {
  }

  /** A preempt node with a HEALTHY score that reads MASTER and is to be up. */
  ghost predicate HealthyMaster(cfg: Config, n: Node, i: Input) {
    && cfg.mode.Preempt?
    && i.carpRead == Some(Master)
    && i.health.score >= 80
    && !Step(cfg, n, i).assessed.decision.down
  }

  /** The step-down test: a HEALTHY preempt node that reads MASTER, is to be up
      and has not stepped down in the last 60s, against a healthy peer with
      strictly lower advskew plus demotion, which is given 15s if its kernel
      preempts; instants are nanoseconds. */
  lemma StepDownExactly(cfg: Config, n: Node, i: Input)
    requires cfg.Valid() && i.health.Sound()
    ensures var o := Step(cfg, n, i);
      var mine := (if i.skewAtStepDown.Some? then i.skewAtStepDown.value else 0) + o.moved.actualDemotion;
      var contends := HealthyMaster(cfg, n, i)
        && (n.runner.preemptCooldown.None? || i.now - n.runner.preemptCooldown.value > 60_000_000_000);
      var outranked := exists p | p in i.peers ::
        p.ok && p.score >= 80 && p.advskew + p.demotion < mine && p.preempt != 1;
      var awaited := exists p | p in i.peers ::
        p.ok && p.score >= 80 && p.advskew + p.demotion < mine && p.preempt == 1;
      var since := n.runner.kernelPreemptSince;
      && (o.moved.stepDown <==>
          && contends && cfg.peerEnabled
          && (outranked || (awaited && since.Some? && i.now - since.value >= 15_000_000_000)))
      && o.moved.since
        == if contends && cfg.peerEnabled && awaited && !o.moved.stepDown
           then Some(if since.Some? then since.value else i.now)
           else None
  {
  }

  /** The demotion compared is the kernel's own before any step-down, or the one
      wanted if it cannot be read; a step-down is one interface-down. */
  lemma MotionExactly(cfg: Config, n: Node, i: Input)
    requires n.kernel.up == !n.runner.lastIfaceDown
    ensures var o := Step(cfg, n, i);
      && o.node.kernel.up == !(o.assessed.decision.down || o.moved.stepDown)
      && o.moved.actualDemotion
        == (if i.demotionReadable then o.node.kernel.demotion - if o.moved.stepDown then 240 else 0
            else o.assessed.decision.demotion)
      && (o.moved.stepDown ==> |o.moved.commands| > 0 && o.moved.commands[|o.moved.commands| - 1].IfDown?)
  {
  }

  /** The reported role: what was read, or read again after a change of state or
      a step-down, unless a HEALTHY preempt node that reads BACKUP is strictly
      below every healthy peer and reports the MASTER it is about to become. */
  lemma RoleExactly(cfg: Config, n: Node, i: Input)
    ensures var o := Step(cfg, n, i);
      var again := (o.assessed.state != n.runner.lastState || o.moved.stepDown) && i.carpRefresh.Some?;
      var read := if again then i.carpRefresh.value else if i.carpRead.Some? then i.carpRead.value else Unknown;
      && (o.told.predicted <==>
          && cfg.mode.Preempt? && o.assessed.state.Healthy? && read.Backup? && i.skewAtPrediction.Some?
          && forall p | p in i.peers && cfg.peerEnabled && p.ok && p.score >= 80 ::
              p.advskew + p.demotion > i.skewAtPrediction.value + o.moved.actualDemotion)
      && o.told.carp == (if o.told.predicted then Master else read)
      && o.node.runner.wasMaster
        == (if o.assessed.state.Healthy? then o.told.carp.Master? else n.runner.wasMaster)
  {
  }

  /** A node that stepped down and re-reads its role reports what it reads and
      remembers being MASTER only if it still reads so. */
  lemma SteppedDownTellsTheRole(cfg: Config, n: Node, i: Input)
    requires Step(cfg, n, i).moved.stepDown && i.carpRefresh.Some? && !i.carpRefresh.value.Backup?
    ensures var o := Step(cfg, n, i);
      o.told.carp == i.carpRefresh.value && o.node.runner.wasMaster == i.carpRefresh.value.Master?
  {
  }

  /** The loss alert: the option is on, a HEALTHY preempt node was MASTER and
      reports BACKUP, and no healthy peer has strictly lower effective advskew. */
  lemma LossExactly(cfg: Config, n: Node, i: Input)
    ensures var o := Step(cfg, n, i);
      o.told.vipLoss <==>
        && cfg.vipLossAlert && cfg.mode.Preempt? && n.runner.wasMaster
        && o.told.carp.Backup? && o.assessed.state.Healthy?
        && forall p | p in i.peers && cfg.peerEnabled && p.ok && p.score >= 80 ::
            p.advskew + p.demotion >= (if i.skewAtGuard.Some? then i.skewAtGuard.value else 0) + o.moved.actualDemotion
  {
  }

  /** What else a cycle carries over. */
  lemma FieldsExactly(cfg: Config, n: Node, i: Input)
    requires cfg.Valid() && i.health.Sound()
    ensures var o, r := Step(cfg, n, i), n.runner;
      var r' := o.node.runner;
      var full := i.health.max > 0 && i.health.raw == i.health.max;
      && r'.lastDemotion == o.assessed.decision.demotion
      && (r'.lastIfaceDown <==> o.assessed.decision.down || o.moved.stepDown)
      && r'.preemptCooldown == (if o.moved.stepDown then Some(i.now) else r.preemptCooldown)
      && r'.kernelPreemptSince == o.moved.since
      && (cfg.mode.Preempt? ==> r'.recoveryStreak == if r.lastIfaceDown && full then r.recoveryStreak + 1 else 0)
  {
  }

  /** A stop forgets only that the interface was down. */
  lemma StopKeepsTheRest(n: Node)
    ensures var s := Stop(n);
      && !s.runner.lastIfaceDown
      && s.runner.(lastIfaceDown := n.runner.lastIfaceDown) == n.runner
      && (!n.runner.lastIfaceDown ==> s == n && StopCommands(n) == [])
  {
  }
}
