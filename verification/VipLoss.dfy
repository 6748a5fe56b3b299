/** The unexpected-VIP-loss alert: how the refresh, the MASTER prediction and the
    guard of one cycle interact (internal/agent/runner.go, steps 3, 4 and the
    split-brain guard). */
module VipLoss {
  import opened Basics
  import opened Config
  import opened Control
  import Health
  import StepDown
  import Witness

  /** A HEALTHY preempt node that was MASTER now reads BACKUP — anew if its state
      has changed or it stepped down — with the option on. */
  ghost predicate LostRole(cfg: Config, n: Node, i: Input) {
    var o := Step(cfg, n, i);
    && cfg.vipLossAlert && cfg.mode.Preempt? && n.runner.wasMaster
    && o.assessed.state.Healthy?
    && (if (n.runner.lastState != Healthy || o.moved.stepDown) && i.carpRefresh.Some?
        then i.carpRefresh == Some(Backup)
        else i.carpRead == Some(Backup))
  }

  /** The cycle reads one and the same advskew wherever it reads it. */
  ghost predicate SkewsAgree(i: Input, skew: int) {
    i.skewAtStepDown == i.skewAtPrediction == i.skewAtGuard == Some(skew)
  }

  /** The least effective advskew among healthy peers is exactly `mine`. */
  ghost predicate TiedForLeast(peers: seq<PeerHealth>, mine: int) {
    && (exists p | p in peers :: p.ok && p.score >= 80 && p.advskew + p.demotion == mine)
    && (forall p | p in peers && p.ok && p.score >= 80 :: p.advskew + p.demotion >= mine)
  }

  /** With readable advskews, the alert fires exactly on a tie: the best healthy
      peer advertises precisely this node's own effective advskew. */
  lemma FiresExactlyOnATie(cfg: Config, n: Node, i: Input, skew: int)
    requires SkewsAgree(i, skew)
    ensures var o := Step(cfg, n, i);
      o.told.vipLoss <==> LostRole(cfg, n, i) && TiedForLeast(o.assessed.peers, skew + o.moved.actualDemotion)
  {
    var o := Step(cfg, n, i);
    TieIsContestedUnoutranked(o.assessed.peers, skew + o.moved.actualDemotion);
  }

  lemma TieIsContestedUnoutranked(peers: seq<PeerHealth>, mine: int)
    ensures TiedForLeast(peers, mine) <==> Contested(peers, mine) && !Outranked(peers, mine)
  {
    if Contested(peers, mine) && !Outranked(peers, mine) {
      var p :| p in peers && p.Fit() && p.Effective() <= mine;
      assert !StepDown.Outranks(p, mine);
    }
    if TiedForLeast(peers, mine) {
      var p :| p in peers && p.ok && p.score >= 80 && p.advskew + p.demotion == mine;
      assert p.Fit() && p.Effective() <= mine;
    }
  }

  /** The documentation promises the alert whenever the role was lost and no
      healthy peer has a lower effective advskew. The code keeps that promise if
      and only if some healthy peer is at or below this node, or the advskew
      could not be read for the prediction; otherwise it predicts MASTER first
      and stays silent. */
  lemma MeetsDocumentationIff(cfg: Config, n: Node, i: Input)
    requires LostRole(cfg, n, i)
    ensures var o := Step(cfg, n, i);
      var promised := forall p | p in o.assessed.peers && p.ok && p.score >= 80 ::
        p.advskew + p.demotion >= i.skewAtGuard.GetOr(0) + o.moved.actualDemotion;
      promised ==>
        (o.told.vipLoss <==>
          || i.skewAtPrediction.None?
          || exists p | p in o.assessed.peers && p.ok && p.score >= 80 ::
              p.advskew + p.demotion <= i.skewAtPrediction.value + o.moved.actualDemotion)
  {
  }

  /** The promise is broken in cycle `i`: the role is lost, nobody outranks the
      node, and no alert is raised. */
  ghost predicate Unreported(r: Run, i: nat)
    requires i < |r.ins|
  {
    var n, o := r.At(i), r.Cycle(i);
    && r.Booted()
    && LostRole(r.cfg, n, r.ins[i])
    && (forall p | p in o.assessed.peers && p.ok && p.score >= 80 ::
        p.advskew + p.demotion >= r.ins[i].skewAtGuard.GetOr(0) + o.moved.actualDemotion)
    && !o.told.vipLoss
  }

  /** Two cycles of a node that passes every check and hears nobody: MASTER, then
      BACKUP. */
  ghost function LosingRun(cfg: Config): Run {
    var full := Witness.Result(cfg, Witness.Passed(cfg));
    Run(cfg, Witness.Fresh(), [Witness.Reading(0, full, Master, [], 0),
                               Witness.Reading(5 * SECOND, full, Backup, [], 0)])
  }

  /** Healthy, alone and the lawful MASTER, it loses the role in silence. */
  lemma LossGoesUnreported(cfg: Config)
    requires cfg.Valid() && cfg.mode.Preempt? && cfg.vipLossAlert && cfg.Checks().MaxScore() > 0
    ensures Unreported(LosingRun(cfg), 1)
  {
    hide Health.Evaluate, Witness.Passed;
    var r := LosingRun(cfg);
    Witness.ExtremeResults(cfg);
    assert Attainable(cfg, r.ins[0].health) && r.ins[1].health == r.ins[0].health;
    assert r.At(1) == Step(cfg, r.start, r.ins[0]).node;
    assert r.At(1).runner.wasMaster && !r.At(1).runner.lastIfaceDown && r.At(1).runner.lastState == Healthy;
  }

  /** Under a valid configuration the promise is broken in some run exactly when
      the alert is in use and a check is enabled: a node that is always at score
      0 has no healthy role to lose. */
  lemma PromiseBreaksIff(cfg: Config)
    requires cfg.Valid()
    ensures (exists r: Run, i: nat :: r.cfg == cfg && i < |r.ins| && Unreported(r, i))
      <==> cfg.mode.Preempt? && cfg.vipLossAlert && cfg.Checks().MaxScore() > 0
  {
    hide Health.Evaluate, Witness.Passed, Config.Checks;
    if r: Run, i: nat :| r.cfg == cfg && i < |r.ins| && Unreported(r, i) {
      hide LosingRun;
      LossMeansHealthy(cfg, r.At(i), r.ins[i]);
      assert Attainable(cfg, r.ins[i].health);
      Witness.NothingToScore(cfg, r.ins[i].health);
    }
    if cfg.mode.Preempt? && cfg.vipLossAlert && cfg.Checks().MaxScore() > 0 {
      LossGoesUnreported(cfg);
      assert LosingRun(cfg).cfg == cfg && 1 < |LosingRun(cfg).ins|;
    }
  }

  lemma LossMeansHealthy(cfg: Config, n: Node, i: Input)
    requires LostRole(cfg, n, i)
    ensures cfg.mode.Preempt? && cfg.vipLossAlert && i.health.score >= 80
  {
  }

  /** In particular it never fires for a node that sees no healthy peer and can
      read its advskew for the prediction. */
  lemma SilentWithoutHealthyPeer(cfg: Config, n: Node, i: Input)
    requires i.skewAtPrediction.Some?
    requires forall p | p in i.peers :: !p.Fit()
    ensures !Step(cfg, n, i).told.vipLoss
  {
  }

  /** The three comparisons never contradict each other: a cycle that steps down
      neither predicts MASTER nor raises the alert. */
  lemma StepDownIsNeverALoss(cfg: Config, n: Node, i: Input, skew: int)
    requires SkewsAgree(i, skew)
    requires Step(cfg, n, i).moved.stepDown
    ensures !Step(cfg, n, i).told.predicted && !Step(cfg, n, i).told.vipLoss
  {
    var o := Step(cfg, n, i);
    var mine := skew + o.moved.actualDemotion;
    var p :| p in o.assessed.peers && StepDown.Outranks(p, mine);
    assert p.Fit() && p.Effective() <= mine;
  }

  // ----- what "was MASTER" remembers -----

  ghost predicate LastHealthyCycle(r: Run, m: nat, i: nat)
    requires i <= |r.ins|
  {
    m < i && r.Cycle(m).assessed.state.Healthy? && forall q: nat | m < q < i :: !r.Cycle(q).assessed.state.Healthy?
  }

  lemma RoleStep(cfg: Config, n: Node, i: Input)
    ensures var o := Step(cfg, n, i);
      o.node.runner.wasMaster == if o.assessed.state.Healthy? then o.told.carp.Master? else n.runner.wasMaster
  {
  }

  /** The role compared against is the one reported by the last HEALTHY cycle, so
      a dip in health in between does not erase it. */
  lemma {:induction false} RemembersLastHealthyRole(r: Run, m: nat, i: nat)
    requires i <= |r.ins| && LastHealthyCycle(r, m, i)
    ensures r.At(i).runner.wasMaster == r.Cycle(m).told.carp.Master?
  {
    hide Step;
    RoleStep(r.cfg, r.At(i - 1), r.ins[i - 1]);
    if m < i - 1 {
      assert !r.Cycle(i - 1).assessed.state.Healthy?;
      RemembersLastHealthyRole(r, m, i - 1);
    }
  }

  /** A run that has had no HEALTHY cycle remembers no role. */
  lemma {:induction false} NeverHealthyNeverMaster(r: Run, i: nat)
    requires r.Started() && i <= |r.ins|
    requires forall q: nat | q < i :: !r.Cycle(q).assessed.state.Healthy?
    ensures !r.At(i).runner.wasMaster
  {
    hide Step, Attainable;
    if i > 0 {
      NeverHealthyNeverMaster(r, i - 1);
      assert !r.Cycle(i - 1).assessed.state.Healthy?;
      RoleStep(r.cfg, r.At(i - 1), r.ins[i - 1]);
    }
  }
}
