/** The kernel-preempt grace timer over whole runs, and the order-independence
    of everything a cycle does with its peer list. */
module GraceRuns {
  import opened Basics
  import opened Config
  import opened Control
  import Cycle
  import GateRuns
  import KernelRuns

  function Mine(i: Input, o: Outcome): int {
    i.skewAtStepDown.GetOr(0) + o.moved.actualDemotion
  }

  /** Cycle `i` compares with its peers: a preempt node with a HEALTHY score that
      reads MASTER, whose interface is not held down by the gate, and every
      step-down of the run lies more than 60s back. */
  ghost predicate Contends(r: Run, i: nat)
    requires i < |r.ins|
  {
    && r.cfg.mode.Preempt? && r.cfg.peerEnabled
    && r.ins[i].carpRead == Some(Master)
    && r.ins[i].health.score >= 80
    && (r.At(i).runner.lastIfaceDown ==> GateRuns.GatePassed(r, GateRuns.FullCycles(r.cfg), i))
    && forall m | 0 <= m < i && r.Cycle(m).moved.stepDown :: r.ins[i].now - r.ins[m].now > 60 * SECOND
  }

  /** A healthy peer with strictly lower effective advskew, whose kernel preempts
      or not. */
  predicate Better(p: PeerHealth, mine: int, kernel: bool) {
    p.ok && p.score >= 80 && p.advskew + p.demotion < mine && (p.preempt == 1 <==> kernel)
  }

  /** Cycle `m` waited for a peer's kernel: it contended, a better peer with
      kernel preempt was there, and it kept its interface. */
  ghost predicate Deferring(r: Run, m: nat)
    requires m < |r.ins|
  {
    var o := r.Cycle(m);
    && Contends(r, m)
    && (exists p | p in r.ins[m].peers :: Better(p, Mine(r.ins[m], o), true))
    && !o.moved.stepDown
  }

  /** Cycles `j` up to but not including `i` are one unbroken wait that began at
      `j`. */
  ghost predicate Waiting(r: Run, j: nat, i: nat)
    requires i <= |r.ins|
  {
    && j <= i
    && (forall m: nat | j <= m < i :: Deferring(r, m))
    && (0 < j <= |r.ins| ==> !Deferring(r, j - 1))
  }

  /** The cooldown the agent keeps as one instant is over exactly when every
      step-down of the run lies more than 60s back. */
  lemma CooldownIsHistory(r: Run, i: nat)
    requires r.Started() && i < |r.ins|
    ensures var mark := r.At(i).runner.preemptCooldown;
      mark.None? || r.ins[i].now - mark.value > 60 * SECOND
      <==> forall m | 0 <= m < i && r.Cycle(m).moved.stepDown :: r.ins[i].now - r.ins[m].now > 60 * SECOND
  {
    hide Step, Attainable;
    var mark := r.At(i).runner.preemptCooldown;
    GateRuns.MarkIsAStepDown(r, i);
    forall m | 0 <= m < i && r.Cycle(m).moved.stepDown
      ensures mark.Some? && (mark.value == r.ins[m].now || mark.value - r.ins[m].now > 60 * SECOND)
    {
      GateRuns.CooldownMark(r, m, i);
    }
  }

  /** Contending is what the step-down test of the cycle asks for. */
  lemma ContendsMeans(r: Run, i: nat)
    requires r.Started() && i < |r.ins|
    ensures Contends(r, i) <==>
      && r.cfg.mode.Preempt? && r.cfg.peerEnabled
      && r.ins[i].carpRead == Some(Master)
      && r.ins[i].health.score >= 80
      && !r.Cycle(i).assessed.decision.down
      && (var mark := r.At(i).runner.preemptCooldown; mark.None? || r.ins[i].now - mark.value > 60 * SECOND)
  {
    hide Step, Attainable;
    CooldownIsHistory(r, i);
    Cycle.DecisionExactly(r.cfg, r.At(i), r.ins[i]);
    if r.cfg.mode.Preempt? {
      GateRuns.GateIsExact(r, i);
      GateRuns.BroughtUpMeans(r, i);
    }
  }

  lemma TimerStep(r: Run, i: nat)
    requires r.Started() && i < |r.ins|
    ensures r.At(i + 1).runner.kernelPreemptSince
      == if Deferring(r, i) then Some(r.At(i).runner.kernelPreemptSince.GetOr(r.ins[i].now)) else None
  {
    hide Step, Attainable, Contends;
    ContendsMeans(r, i);
    Cycle.StepDownExactly(r.cfg, r.At(i), r.ins[i]);
    Cycle.FieldsExactly(r.cfg, r.At(i), r.ins[i]);
  }

  /** The timer is faithful to history: it holds the start of the unbroken wait
      that ends a run, and is unset when the last cycle did not wait. */
  lemma {:induction false} TimerIsWaitStart(r: Run, j: nat, i: nat)
    requires r.Started() && i <= |r.ins| && Waiting(r, j, i)
    ensures r.At(i).runner.kernelPreemptSince == if j < i then Some(r.ins[j].now) else None
  {
    hide Step, Attainable;
    if i > 0 {
      TimerStep(r, i - 1);
      if j < i {
        assert Waiting(r, j, i - 1);
        TimerIsWaitStart(r, j, i - 1);
      }
    }
  }

  /** Every run ends in exactly one such wait, possibly empty. */
  lemma {:induction false} WaitExists(r: Run, i: nat) returns (j: nat)
    requires i <= |r.ins|
    ensures Waiting(r, j, i)
    ensures forall j': nat | Waiting(r, j', i) :: j' == j
  {
    hide Step, Attainable;
    if i == 0 || !Deferring(r, i - 1) {
      j := i;
    } else {
      j := WaitExists(r, i - 1);
    }
  }

  /** The step-down decision of cycle `i` from the history of the run alone: a
      node that contends goes at once for a better peer without kernel preempt,
      and for one with it in the first cycle that comes 15s or more after the
      wait began. */
  lemma StepsDownExactlyWhen(r: Run, j: nat, i: nat)
    requires r.Started() && i < |r.ins| && Waiting(r, j, i)
    ensures var o := r.Cycle(i);
      var mine := Mine(r.ins[i], o);
      o.moved.stepDown <==>
        && Contends(r, i)
        && (|| (exists p | p in r.ins[i].peers :: Better(p, mine, false))
            || (&& (exists p | p in r.ins[i].peers :: Better(p, mine, true))
                && j < i && r.ins[i].now - r.ins[j].now >= 15 * SECOND))
  {
    hide Step, Attainable, Contends;
    TimerIsWaitStart(r, j, i);
    ContendsMeans(r, i);
    Cycle.StepDownExactly(r.cfg, r.At(i), r.ins[i]);
  }

  /** What it compares with: the configured advskew as read, or 0, plus the level
      the cycle wants. */
  lemma ComparesWith(r: Run, i: nat)
    requires r.Booted() && i < |r.ins| && Contends(r, i)
    requires forall m | 0 <= m <= i :: KernelRuns.Distinguishable(r.cfg, r.ins[m])
    ensures var better := exists p | p in r.ins[i].peers :: p.ok && p.score > r.ins[i].health.score;
      Mine(r.ins[i], r.Cycle(i))
      == (if r.ins[i].skewAtStepDown.Some? then r.ins[i].skewAtStepDown.value else 0)
         + (if !better then r.cfg.demotion.healthy
            else if r.cfg.demotion.degraded > 0 then r.cfg.demotion.degraded else 50)
  {
    hide Step, Attainable, Contends;
    ContendsMeans(r, i);
    KernelRuns.ComparedDemotionIsDesired(r, i);
    Cycle.DecisionExactly(r.cfg, r.At(i), r.ins[i]);
    assert r.ins[i].carpRead == Some(Master) && r.ins[i].health.score >= 80;
  }

  /** No wait outlasts its grace: an unbroken wait never spans 15s. */
  lemma WaitsAreShort(r: Run, j: nat, i: nat)
    requires r.Started() && i < |r.ins| && j < i && Waiting(r, j, i + 1)
    ensures r.ins[i].now - r.ins[j].now < 15 * SECOND
  {
    hide Step, Attainable;
    assert Waiting(r, j, i);
    StepsDownExactlyWhen(r, j, i);
    assert Deferring(r, i);
  }

  // ----- the order of the peer list -----

  ghost predicate SamePeers(a: seq<PeerHealth>, b: seq<PeerHealth>) {
    forall p :: p in a <==> p in b
  }

  /** Listing the same peers in another order, or twice, changes nothing a cycle
      decides, writes or reports. */
  lemma PeerOrderIsIrrelevant(cfg: Config, n: Node, i: Input, peers: seq<PeerHealth>)
    requires SamePeers(i.peers, peers)
    ensures var o, o' := Step(cfg, n, i), Step(cfg, n, i.(peers := peers));
      && o'.node == o.node
      && o'.moved == o.moved
      && o'.told == o.told
      && o'.assessed.(peers := o.assessed.peers) == o.assessed
  {
    hide Assess, Move, Tell;
    var i' := i.(peers := peers);
    var a, a' := Assess(cfg, n, i), Assess(cfg, n, i');
    SameAssessment(cfg, n, i, i');
    SameMotion(cfg, n, i, i', a, a');
    SameReport(cfg, n, i, i', a, a', Move(cfg, n, i, a));
  }

  lemma SameAssessment(cfg: Config, n: Node, i: Input, i': Input)
    requires SamePeers(i.peers, i'.peers) && i' == i.(peers := i'.peers)
    ensures var a, a' := Assess(cfg, n, i), Assess(cfg, n, i');
      a'.(peers := a.peers) == a && SamePeers(a.peers, a'.peers)
  {
  }

  lemma SameMotion(cfg: Config, n: Node, i: Input, i': Input, a: Assessment, a': Assessment)
    requires SamePeers(a.peers, a'.peers) && i' == i.(peers := i'.peers) && a'.(peers := a.peers) == a
    ensures Move(cfg, n, i, a) == Move(cfg, n, i', a')
  {
    hide Settled, SettleCommands;
  }

  lemma SameReport(cfg: Config, n: Node, i: Input, i': Input, a: Assessment, a': Assessment, m: Motion)
    requires SamePeers(a.peers, a'.peers) && i' == i.(peers := i'.peers) && a'.(peers := a.peers) == a
    ensures Tell(cfg, n, i, a, m) == Tell(cfg, n, i', a', m)
  {
  }
}
