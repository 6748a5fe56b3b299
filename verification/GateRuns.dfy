/** The recovery gate over whole runs: when the interface comes back, when it is
    down, and how far apart step-downs are. */
module GateRuns {
  import opened Basics
  import opened Config
  import opened Control
  import Kernel
  import KernelRuns
  import Policy
  import StepDown

  /** Full cycles the gate asks for: as configured, and 3 for 0. */
  function FullCycles(cfg: Config): int {
    if cfg.recoveryConfirm > 0 then cfg.recoveryConfirm else 3
  }

  /** Cycle `m` began with the interface down and passed every enabled check. */
  ghost predicate Qualifies(r: Run, m: nat)
    requires m < |r.ins|
  {
    r.At(m).runner.lastIfaceDown && r.ins[m].health.max > 0 && r.ins[m].health.raw == r.ins[m].health.max
  }

  /** The `k` cycles up to and including cycle `i` all qualify. */
  ghost predicate GatePassed(r: Run, k: int, i: nat)
    requires i < |r.ins|
  {
    i + 1 >= k && forall m: nat | i + 1 - k <= m <= i :: Qualifies(r, m)
  }

  ghost predicate BroughtUp(r: Run, i: nat)
    requires i < |r.ins|
  {
    Kernel.IfUp in r.Cycle(i).moved.commands
  }

  /** A cycle issues an interface-up exactly when the node was down and its final
      decision is up. */
  lemma BroughtUpMeans(r: Run, i: nat)
    requires i < |r.ins|
    ensures BroughtUp(r, i) <==> r.At(i).runner.lastIfaceDown && !r.Cycle(i).assessed.decision.down
  {
    var n, d := r.At(i), r.Cycle(i).assessed.decision;
    assert Kernel.IfUp !in Rewrites(n, n.kernel, d);
    if n.runner.lastIfaceDown && !d.down {
      assert r.Cycle(i).moved.commands[0] == Kernel.IfUp;
    }
  }

  /** What one cycle does to the streak. */
  lemma StreakStep(cfg: Config, n: Node, i: Input)
    requires cfg.Valid() && i.health.Sound() && cfg.mode.Preempt?
    ensures var full := n.runner.lastIfaceDown && Policy.FullScore(i.health.raw, i.health.max);
      var o := Step(cfg, n, i);
      && o.node.runner.recoveryStreak == (if full then n.runner.recoveryStreak + 1 else 0)
      && (n.runner.lastIfaceDown ==>
          (!o.assessed.decision.down <==> full && n.runner.recoveryStreak + 1 >= cfg.RecoveryConfirm()))
  {
  }

  /** The streak is the number of qualifying cycles that end a run. */
  lemma {:induction false} StreakIsHistory(r: Run, i: nat)
    requires r.Started() && r.cfg.mode.Preempt? && i <= |r.ins|
    ensures var s := r.At(i).runner.recoveryStreak;
      && 0 <= s <= i
      && (forall m: nat | i - s <= m < i :: Qualifies(r, m))
      && (s < i ==> !Qualifies(r, i - s - 1))
  {
    hide Step, Attainable;
    if i > 0 {
      StreakIsHistory(r, i - 1);
      StreakStep(r.cfg, r.At(i - 1), r.ins[i - 1]);
    }
  }

  /** The gate is exact: in preempt mode a cycle brings the interface up if and
      only if it and the cycles before it, `recovery_confirm` in all, began down
      with a full score. */
  lemma GateIsExact(r: Run, i: nat)
    requires r.Started() && r.cfg.mode.Preempt? && i < |r.ins|
    ensures BroughtUp(r, i) <==> GatePassed(r, FullCycles(r.cfg), i)
  {
    hide Step, Attainable;
    BroughtUpMeans(r, i);
    StreakIsHistory(r, i);
    StreakStep(r.cfg, r.At(i), r.ins[i]);
    var k, s := FullCycles(r.cfg), r.At(i).runner.recoveryStreak;
    if GatePassed(r, k, i) {
      assert Qualifies(r, i);
    }
  }

  /** So a returning node is never degraded: it scores 100, counts as HEALTHY
      and advertises no more than its policy's level. */
  lemma ReturnsHealthy(r: Run, i: nat)
    requires r.Started() && r.cfg.mode.Preempt? && i < |r.ins| && BroughtUp(r, i)
    ensures r.ins[i].health.score == 100
    ensures r.Cycle(i).assessed.state == Healthy
    ensures r.Cycle(i).assessed.decision.demotion != r.cfg.Demotions().healthy ==> !KernelRuns.OnScale(r.ins[i])
  {
    BroughtUpMeans(r, i);
    KernelRuns.ComingBackIsFull(r.cfg, r.At(i), r.ins[i]);
  }

  /** A node taken down in cycle `j` and fully healthy from then on is brought up
      by its k-th cycle and not before. */
  lemma ReturnsOnTheKth(r: Run, j: nat)
    requires r.Started() && r.cfg.mode.Preempt?
    requires var k := FullCycles(r.cfg); j + k < |r.ins|
    requires !r.At(j).runner.lastIfaceDown && r.At(j + 1).runner.lastIfaceDown
    requires forall m: nat | j < m <= j + FullCycles(r.cfg) ::
      Policy.FullScore(r.ins[m].health.raw, r.ins[m].health.max)
    ensures BroughtUp(r, j + FullCycles(r.cfg))
    ensures forall m: nat | j < m < j + FullCycles(r.cfg) :: !BroughtUp(r, m)
  {
    hide Step, Attainable;
    var k := FullCycles(r.cfg);
    assert !Qualifies(r, j);
    var m := j + 1;
    while m < j + k
      invariant j < m <= j + k
      invariant forall q: nat | j < q <= m :: r.At(q).runner.lastIfaceDown
      invariant forall q: nat | j < q < m :: !BroughtUp(r, q)
    {
      GateIsExact(r, m);
      assert !GatePassed(r, k, m);
      BroughtUpMeans(r, m);
      DownAfter(r.cfg, r.At(m), r.ins[m]);
      m := m + 1;
    }
    assert forall q: nat | j < q <= j + k :: Qualifies(r, q);
    GateIsExact(r, j + k);
  }

  lemma DownAfter(cfg: Config, n: Node, i: Input)
    ensures var o := Step(cfg, n, i);
      o.node.runner.lastIfaceDown <==> o.assessed.decision.down || o.moved.stepDown
  {
  }

  /** When the agent's down flag is set after a cycle, from history alone: the
      score is below 40, or the node stepped down, or it is a preempt node whose
      flag was set and that has not passed the gate. Going down is never delayed.
      For a node that started with its interface up, the flag is the interface. */
  lemma DownExactlyWhen(r: Run, i: nat)
    requires r.Started() && i < |r.ins|
    ensures r.At(i + 1).runner.lastIfaceDown <==>
      || r.ins[i].health.score < 40
      || r.Cycle(i).moved.stepDown
      || (r.cfg.mode.Preempt? && r.At(i).runner.lastIfaceDown && !GatePassed(r, FullCycles(r.cfg), i))
    ensures r.Booted() ==> r.At(i + 1).runner.lastIfaceDown == !r.At(i + 1).kernel.up
    ensures r.cfg.mode.Sticky? ==> !r.Cycle(i).moved.stepDown
  {
    hide Step, Attainable;
    DownStep(r.cfg, r.At(i), r.ins[i]);
    if r.Booted() {
      KernelRuns.CommandsAlternate(r, i + 1);
    }
    if r.cfg.mode.Preempt? {
      GateIsExact(r, i);
      BroughtUpMeans(r, i);
      DownAfter(r.cfg, r.At(i), r.ins[i]);
      assert GatePassed(r, FullCycles(r.cfg), i) ==> Qualifies(r, i);
    }
  }

  lemma DownStep(cfg: Config, n: Node, i: Input)
    requires cfg.Valid() && i.health.Sound()
    ensures var o := Step(cfg, n, i);
      && (o.node.runner.lastIfaceDown <==> i.health.score < 40 || o.assessed.held || o.moved.stepDown)
      && (cfg.mode.Sticky? ==> !o.assessed.held && !o.moved.stepDown)
      && (o.assessed.held <==>
          cfg.mode.Preempt? && n.runner.lastIfaceDown && i.health.score >= 40 && o.assessed.decision.down)
      && (i.health.score < 40 ==> !o.moved.stepDown && o.assessed.decision.down)
      && (Policy.FullScore(i.health.raw, i.health.max) ==> i.health.score == 100)
  {
  }

  // ----- step-downs -----

  lemma StepDownStep(cfg: Config, n: Node, i: Input)
    ensures var o := Step(cfg, n, i);
      && (o.moved.stepDown ==>
          && StepDown.PastCooldown(n.runner.preemptCooldown, i.now)
          && !o.assessed.decision.down && o.node.runner.lastIfaceDown && cfg.mode.Preempt?)
      && o.node.runner.preemptCooldown == (if o.moved.stepDown then Some(i.now) else n.runner.preemptCooldown)
  {
  }

  /** After a step-down the cooldown mark is that instant or one more than 60s
      later. */
  lemma {:induction false} CooldownMark(r: Run, i: nat, j: nat)
    requires i < j <= |r.ins| && r.Cycle(i).moved.stepDown
    ensures var mark := r.At(j).runner.preemptCooldown;
      && mark.Some?
      && (mark.value == r.ins[i].now || mark.value - r.ins[i].now > 60 * SECOND)
  {
    hide Step, Attainable;
    StepDownStep(r.cfg, r.At(j - 1), r.ins[j - 1]);
    if i < j - 1 {
      CooldownMark(r, i, j - 1);
    }
  }

  /** The mark is the instant of some step-down of the run. */
  lemma {:induction false} MarkIsAStepDown(r: Run, i: nat)
    requires r.Started() && i <= |r.ins|
    ensures var mark := r.At(i).runner.preemptCooldown;
      mark.Some? ==> exists m | 0 <= m < i :: r.Cycle(m).moved.stepDown && mark.value == r.ins[m].now
  {
    hide Step, Attainable;
    if i > 0 {
      MarkIsAStepDown(r, i - 1);
      StepDownStep(r.cfg, r.At(i - 1), r.ins[i - 1]);
      if r.Cycle(i - 1).moved.stepDown {
        assert r.At(i).runner.preemptCooldown.value == r.ins[i - 1].now;
      }
    }
  }

  lemma {:induction false} UpAgain(r: Run, i: nat, j: nat) returns (m: nat)
    requires i <= j < |r.ins|
    requires r.At(i).runner.lastIfaceDown && !r.Cycle(j).assessed.decision.down
    ensures i <= m <= j && BroughtUp(r, m)
    decreases j - i
  {
    hide Step, Attainable;
    BroughtUpMeans(r, i);
    if BroughtUp(r, i) {
      m := i;
    } else {
      DownAfter(r.cfg, r.At(i), r.ins[i]);
      m := UpAgain(r, i + 1, j);
    }
  }

  /** Any two step-downs of a run are more than 60s apart on the agent's own
      clock, however it moves, and between them the node was brought up through
      the whole gate — at least `recovery_confirm` cycles later, unless the first
      step-down came in the very cycle that had brought it up. */
  lemma StepDownsAreSpaced(r: Run, i: nat, j: nat)
    requires r.Started() && i < j < |r.ins|
    requires r.Cycle(i).moved.stepDown && r.Cycle(j).moved.stepDown
    ensures r.ins[j].now - r.ins[i].now > 60 * SECOND
    ensures exists m: nat | i < m <= j ::
      && BroughtUp(r, m)
      && GatePassed(r, FullCycles(r.cfg), m)
      && (m < i + FullCycles(r.cfg) ==> BroughtUp(r, i))
  {
    hide Step, Attainable;
    CooldownMark(r, i, j);
    StepDownStep(r.cfg, r.At(j), r.ins[j]);
    StepDownStep(r.cfg, r.At(i), r.ins[i]);
    var m := UpAgain(r, i + 1, j);
    GateIsExact(r, m);
    BroughtUpMeans(r, i);
    assert m < i + FullCycles(r.cfg) ==> Qualifies(r, i);
  }
}
