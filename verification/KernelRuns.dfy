/** What every run keeps about the interface and the demotion counter. */
module KernelRuns {
  import opened Basics
  import opened Config
  import opened Control
  import Cycle
  import Health
  import Kernel
  import Policy
  import Witness

  /** The agent's book-keeping agrees with the kernel. While down, the counter
      is the last level plus the kernel's 240 — or, when a held node rewrote it
      while already down, exactly the unhealthy level. */
  ghost predicate InSync(cfg: Config, n: Node) {
    && n.kernel.up == !n.runner.lastIfaceDown
    && (n.runner.lastDemotion == NO_DEMOTION ==> n.kernel.up)
    && (n.runner.lastDemotion != NO_DEMOTION && n.kernel.up ==> n.kernel.demotion == n.runner.lastDemotion)
    && (!n.kernel.up ==> DownCounter(cfg, n))
  }

  ghost predicate DownCounter(cfg: Config, n: Node) {
    || n.kernel.demotion == n.runner.lastDemotion + Kernel.IFDOWN_DEMOTION
    || (cfg.mode.Preempt? && n.kernel.demotion == n.runner.lastDemotion == cfg.Demotions().unhealthy)
  }

  /** Peer reports stay on the 0..100 scale every agent's score is on. */
  ghost predicate OnScale(i: Input) {
    forall p | p in i.peers :: p.score <= 100
  }

  /** Either reports are on scale or the levels differ: what keeps a node from
      coming back at the very level it was parked at. */
  ghost predicate Distinguishable(cfg: Config, i: Input) {
    OnScale(i) || cfg.Demotions().degraded != cfg.Demotions().unhealthy
  }

  /** A preempt node that comes back up has a full score, so its policy is the
      healthy one — short of a report off the scale. */
  lemma ComingBackIsFull(cfg: Config, n: Node, i: Input)
    requires cfg.Valid() && i.health.Sound() && cfg.mode.Preempt? && n.runner.lastIfaceDown
    requires !Assess(cfg, n, i).decision.down
    ensures var a := Assess(cfg, n, i);
      && Policy.FullScore(i.health.raw, i.health.max)
      && i.health.score == 100
      && a.state == Healthy
      && (a.decision.demotion == cfg.Demotions().healthy || a.decision.demotion == cfg.Demotions().degraded)
      && (OnScale(i) ==> a.decision.demotion == cfg.Demotions().healthy)
  {
    ValidatedLevels(cfg);
  }

  lemma DecisionLevels(cfg: Config, n: Node, i: Input)
    requires cfg.Valid()
    ensures var d := Assess(cfg, n, i).decision;
      && d.demotion >= 0
      && (d.down ==> d.demotion == cfg.Demotions().unhealthy)
  {
    ValidatedLevels(cfg);
  }

  /** Settling puts an interface that ends up exactly at the desired level. */
  lemma SettleKeepsSync(cfg: Config, n: Node, i: Input)
    requires cfg.Valid() && i.health.Sound() && InSync(cfg, n) && Distinguishable(cfg, i)
    requires cfg.mode.Sticky? && n.runner.lastIfaceDown ==> n.runner.lastDemotion == cfg.Demotions().unhealthy
    ensures var d := Assess(cfg, n, i).decision;
      var k := Settled(n, d);
      && k.up == !d.down
      && (k.up ==> k.demotion == d.demotion)
      && (!k.up ==>
          || k.demotion == d.demotion + Kernel.IFDOWN_DEMOTION
          || (cfg.mode.Preempt? && k.demotion == d.demotion == cfg.Demotions().unhealthy))
  {
    ValidatedLevels(cfg);
    DecisionLevels(cfg, n, i);
    var d := Assess(cfg, n, i).decision;
    if cfg.mode.Preempt? && n.runner.lastIfaceDown && !d.down {
      ComingBackIsFull(cfg, n, i);
    }
  }

  ghost predicate Kept(cfg: Config, n: Node) {
    && InSync(cfg, n)
    && (cfg.mode.Sticky? && n.runner.lastIfaceDown ==> n.runner.lastDemotion == cfg.Demotions().unhealthy)
  }

  lemma StepKeepsSync(cfg: Config, n: Node, i: Input)
    requires cfg.Valid() && i.health.Sound() && Kept(cfg, n) && Distinguishable(cfg, i)
    ensures Kept(cfg, Step(cfg, n, i).node)
  {
    DecisionLevels(cfg, n, i);
    SettleKeepsSync(cfg, n, i);
  }

  lemma {:induction false} RunKeepsSync(r: Run, i: nat)
    requires r.Booted() && i <= |r.ins|
    requires forall m | 0 <= m < i :: Distinguishable(r.cfg, r.ins[m])
    ensures Kept(r.cfg, r.At(i))
  {
    hide Step, Attainable;
    if i > 0 {
      RunKeepsSync(r, i - 1);
      StepKeepsSync(r.cfg, r.At(i - 1), r.ins[i - 1]);
    }
  }

  /** Over every run: a cycle that ends with the interface up leaves the counter
      at that cycle's desired demotion; one that ends down leaves it 240 above,
      or exactly at the unhealthy level. */
  lemma CounterFollowsDecision(r: Run, i: nat)
    requires r.Booted() && i < |r.ins|
    requires forall m | 0 <= m <= i :: Distinguishable(r.cfg, r.ins[m])
    ensures var o := r.Cycle(i);
      var wanted := o.assessed.decision.demotion;
      && o.node.kernel.up == !(o.assessed.decision.down || o.moved.stepDown)
      && o.node.runner.lastDemotion == wanted
      && (o.node.kernel.up ==> o.node.kernel.demotion == wanted)
      && (!o.node.kernel.up ==>
          || o.node.kernel.demotion == wanted + 240
          || o.node.kernel.demotion == wanted == r.cfg.Demotions().unhealthy)
  {
    RunKeepsSync(r, i);
    StepKeepsSync(r.cfg, r.At(i), r.ins[i]);
    DecisionLevels(r.cfg, r.At(i), r.ins[i]);
    assert r.At(i + 1) == r.Cycle(i).node;
  }

  /** So over every run, in the configuration's own values: a node that is up
      advertises its healthy level from score 80 on, unless it is a preempt
      MASTER that hears a better score; otherwise its degraded level, 50 if that
      is not set. */
  lemma AdvertisesExactly(r: Run, i: nat)
    requires r.Booted() && i < |r.ins|
    requires forall m | 0 <= m <= i :: Distinguishable(r.cfg, r.ins[m])
    requires r.At(i + 1).kernel.up
    ensures var betterPeer := r.cfg.mode.Preempt? && r.cfg.peerEnabled && r.ins[i].carpRead == Some(Master)
        && exists p | p in r.ins[i].peers :: p.ok && p.score > r.ins[i].health.score;
      && r.ins[i].health.score >= 40
      && r.At(i + 1).kernel.demotion
        == if r.ins[i].health.score >= 80 && !betterPeer then r.cfg.demotion.healthy
           else if r.cfg.demotion.degraded > 0 then r.cfg.demotion.degraded
           else 50
  {
    hide Step, Attainable;
    CounterFollowsDecision(r, i);
    Cycle.DecisionExactly(r.cfg, r.At(i), r.ins[i]);
    assert r.At(i + 1) == r.Cycle(i).node;
  }

  // ----- the counter of a downed node -----

  /** The interface went down in cycle `j` and stayed down through cycle `i`,
      without another step-down. */
  ghost predicate DownSince(r: Run, j: nat, i: nat)
    requires i < |r.ins|
  {
    && j <= i
    && (!r.At(j).runner.lastIfaceDown || r.Cycle(j).moved.stepDown)
    && (forall m: nat | j < m <= i + 1 :: r.At(m).runner.lastIfaceDown)
    && (forall m: nat | j < m <= i :: !r.Cycle(m).moved.stepDown)
  }

  /** Every downed node has been down since some cycle. */
  lemma {:induction false} DownSinceExists(r: Run, i: nat) returns (j: nat)
    requires r.Started() && i < |r.ins| && r.At(i + 1).runner.lastIfaceDown
    ensures DownSince(r, j, i)
  {
    hide Step, Attainable;
    if !r.At(i).runner.lastIfaceDown || r.Cycle(i).moved.stepDown {
      j := i;
    } else {
      j := DownSinceExists(r, i - 1);
    }
  }

  lemma DownStep(cfg: Config, n: Node, i: Input)
    requires cfg.Valid() && i.health.Sound() && Kept(cfg, n) && Distinguishable(cfg, i)
    requires Step(cfg, n, i).node.runner.lastIfaceDown
    ensures var o, unhealthy := Step(cfg, n, i), cfg.Demotions().unhealthy;
      var first := o.assessed.decision.demotion;
      && o.node.runner.lastDemotion == first
      && (!n.runner.lastIfaceDown || o.moved.stepDown ==> o.node.kernel.demotion == first + Kernel.IFDOWN_DEMOTION)
      && (n.runner.lastIfaceDown && !o.moved.stepDown ==>
          && first == unhealthy
          && o.node.kernel.demotion == if n.runner.lastDemotion == unhealthy then n.kernel.demotion else unhealthy)
  {
    DecisionLevels(cfg, n, i);
    SettleKeepsSync(cfg, n, i);
  }

  /** Over every run, exactly which value a downed node's counter has: 240 above
      the level it went down with, if that is the unhealthy level or the cycle is
      the one it went down in; the bare unhealthy level otherwise. */
  lemma {:induction false} DownCounterExactly(r: Run, j: nat, i: nat)
    requires r.Booted() && i < |r.ins| && DownSince(r, j, i)
    requires forall m | 0 <= m <= i :: Distinguishable(r.cfg, r.ins[m])
    ensures var first, unhealthy := r.Cycle(j).assessed.decision.demotion, r.cfg.Demotions().unhealthy;
      && r.At(i + 1).runner.lastDemotion == (if i == j then first else unhealthy)
      && r.At(i + 1).kernel.demotion
        == if i == j || first == unhealthy then first + 240 else unhealthy
  {
    hide Step, Attainable, Distinguishable;
    RunKeepsSync(r, i);
    assert r.At(i + 1) == r.Cycle(i).node;
    DownStep(r.cfg, r.At(i), r.ins[i]);
    if j < i {
      DownCounterExactly(r, j, i - 1);
    }
  }

  /** What the last cycle's reports may do, once the ones before were
      distinguishable: coming back up lands on the desired level unless the
      counter had been rewritten while down to the very level now wanted, in
      which case the 240 taken back is never written again. */
  lemma LandsOnDesiredIff(r: Run, i: nat)
    requires r.Booted() && i < |r.ins|
    requires forall m | 0 <= m < i :: Distinguishable(r.cfg, r.ins[m])
    requires r.At(i).runner.lastIfaceDown && !r.Cycle(i).assessed.decision.down
    ensures var n, d := r.At(i), r.Cycle(i).assessed.decision;
      Settled(n, d).demotion == d.demotion <==> !(n.kernel.demotion == n.runner.lastDemotion == d.demotion)
  {
    hide Step, Attainable;
    RunKeepsSync(r, i);
  }

  /** The demotion every comparison of a cycle works with is the desired one
      whenever the interface is wanted up, read back or not. */
  lemma ComparedDemotionIsDesired(r: Run, i: nat)
    requires r.Booted() && i < |r.ins|
    requires forall m | 0 <= m <= i :: Distinguishable(r.cfg, r.ins[m])
    ensures !r.Cycle(i).assessed.decision.down ==>
      r.Cycle(i).moved.actualDemotion == r.Cycle(i).assessed.decision.demotion
  {
    RunKeepsSync(r, i);
    SettleKeepsSync(r.cfg, r.At(i), r.ins[i]);
  }

  // ----- starting on a node that is down -----

  lemma FlagStep(cfg: Config, n: Node, i: Input)
    requires n.kernel.up ==> !n.runner.lastIfaceDown
    ensures var n' := Step(cfg, n, i).node;
      && (n'.kernel.up ==> !n'.runner.lastIfaceDown)
      && (n'.kernel.up == !n'.runner.lastIfaceDown
          <==> n.kernel.up == !n.runner.lastIfaceDown || n'.runner.lastIfaceDown)
  {
  }

  /** The agent takes for granted that the interface is up when it starts. On a
      node left down it is wrong about the interface, which then stays down,
      exactly until it wants the interface down itself; from then on flag and
      kernel agree for good. */
  lemma {:induction false} FlagAgreesExactlyWhen(r: Run, i: nat)
    requires r.Started() && i <= |r.ins|
    ensures r.At(i).kernel.up == !r.At(i).runner.lastIfaceDown
      <==> r.start.kernel.up || exists m: nat | m <= i :: r.At(m).runner.lastIfaceDown
    ensures r.At(i).kernel.up ==> !r.At(i).runner.lastIfaceDown
  {
    hide Step, Attainable;
    if i > 0 {
      FlagAgreesExactlyWhen(r, i - 1);
      FlagStep(r.cfg, r.At(i - 1), r.ins[i - 1]);
    }
  }

  // ----- the command log -----

  lemma CycleCommands(cfg: Config, n: Node, i: Input)
    requires n.kernel.up == !n.runner.lastIfaceDown
    ensures var o := Step(cfg, n, i);
      && Kernel.ExecAll(n.kernel, o.moved.commands) == o.node.kernel
      && Kernel.Alternates(n.kernel, o.moved.commands)
      && o.node.kernel.up == !o.node.runner.lastIfaceDown
  {
    var o := Step(cfg, n, i);
    var d := o.assessed.decision;
    SettledByCommands(n, d);
    SettleAlternates(n, d);
    if o.moved.stepDown {
      var down := [Kernel.IfDown];
      assert down[..0] == [];
      Kernel.ExecAllConcat(n.kernel, SettleCommands(n, d), down);
      Kernel.AlternatesConcat(n.kernel, SettleCommands(n, d), down);
    } else {
      assert SettleCommands(n, d) + [] == SettleCommands(n, d);
    }
  }

  lemma SettleAlternates(n: Node, d: Policy.Decision)
    requires n.kernel.up == !n.runner.lastIfaceDown
    ensures Kernel.Alternates(n.kernel, SettleCommands(n, d))
    ensures Settled(n, d).up == !d.down
  {
    var down, up := [Kernel.IfDown], [Kernel.IfUp];
    assert down[..0] == [] && up[..0] == [];
    if d.down && !n.runner.lastIfaceDown {
      Kernel.AlternatesConcat(n.kernel, Rewrites(n, n.kernel, d), down);
    } else if !d.down && n.runner.lastIfaceDown {
      assert Kernel.ExecAll(n.kernel, up) == Kernel.Exec(n.kernel, Kernel.IfUp);
      Kernel.AlternatesConcat(n.kernel, up, Rewrites(n, Kernel.Exec(n.kernel, Kernel.IfUp), d));
    }
  }

  /** Over every run, whatever is read: the kernel is exactly what the issued
      commands made of it, and interface commands strictly alternate, starting
      with a down. */
  lemma {:induction false} CommandsAlternate(r: Run, i: nat)
    requires r.Booted() && i <= |r.ins|
    ensures r.At(i).kernel.up == !r.At(i).runner.lastIfaceDown
    ensures Kernel.ExecAll(r.start.kernel, r.Log(i)) == r.At(i).kernel
    ensures Kernel.Alternates(r.start.kernel, r.Log(i))
  {
    hide Step, Attainable;
    if i > 0 {
      CommandsAlternate(r, i - 1);
      CycleCommands(r.cfg, r.At(i - 1), r.ins[i - 1]);
      Kernel.ExecAllConcat(r.start.kernel, r.Log(i - 1), r.Cycle(i - 1).moved.commands);
      Kernel.AlternatesConcat(r.start.kernel, r.Log(i - 1), r.Cycle(i - 1).moved.commands);
    }
  }

  /** Over every run the counter is the boot value plus everything written, plus
      240 exactly while the interface is down. */
  lemma CounterConserved(r: Run, i: nat)
    requires r.Booted() && i <= |r.ins|
    ensures r.At(i).kernel.demotion
      == r.start.kernel.demotion + Kernel.Written(r.Log(i))
         + if r.At(i).runner.lastIfaceDown then 240 else 0
  {
    CommandsAlternate(r, i);
    Kernel.CounterBalance(r.start.kernel, r.Log(i));
  }

  // ----- shutdown -----

  /** From every reachable state a stop leaves the interface up, its commands
      continue the alternation, and the counter ends at 0 if the interface had
      been down. */
  lemma StopRestores(r: Run, i: nat)
    requires r.Booted() && i <= |r.ins|
    ensures var n := r.At(i);
      var s := Stop(n);
      && s.kernel.up
      && (n.runner.lastIfaceDown ==> s.kernel.demotion == 0)
      && Kernel.ExecAll(r.start.kernel, r.Log(i) + StopCommands(n)) == s.kernel
      && Kernel.Alternates(r.start.kernel, r.Log(i) + StopCommands(n))
  {
    CommandsAlternate(r, i);
    var n := r.At(i);
    var up := [Kernel.IfUp];
    assert up[..0] == [];
    if n.runner.lastIfaceDown {
      var k := Kernel.Exec(n.kernel, Kernel.IfUp);
      assert Kernel.ExecAll(n.kernel, up) == k;
      Kernel.ExecAllConcat(n.kernel, up, Kernel.DemotionWrites(k, 0));
      Kernel.AlternatesConcat(n.kernel, up, Kernel.DemotionWrites(k, 0));
    }
    Kernel.ExecAllConcat(r.start.kernel, r.Log(i), StopCommands(n));
    Kernel.AlternatesConcat(r.start.kernel, r.Log(i), StopCommands(n));
  }

  /** The documented clean shutdown (interface up and demotion 0) is met exactly
      when the interface was down or the last desired level was 0 — or, before
      the first cycle, when the node already had demotion 0. */
  lemma StopIsCleanIff(r: Run, i: nat)
    requires r.Booted() && i <= |r.ins|
    requires forall m | 0 <= m < i :: Distinguishable(r.cfg, r.ins[m])
    ensures Stop(r.At(i)).kernel == Kernel.State(true, 0)
      <==>
      || r.At(i).runner.lastIfaceDown
      || 0 == if i == 0 then r.start.kernel.demotion else r.At(i).runner.lastDemotion
  {
    hide Step, Attainable;
    if i > 0 {
      CounterFollowsDecision(r, i - 1);
      CommandsAlternate(r, i);
    }
  }

  /** The stop after cycle `i`, among peers with scores of at most 100, is not
      clean. */
  ghost predicate LeavesALevel(r: Run, i: nat)
    requires i < |r.ins|
  {
    && r.Booted()
    && (forall m | 0 <= m <= i :: OnScale(r.ins[m]))
    && Stop(r.At(i + 1)).kernel != Kernel.State(true, 0)
  }

  /** Some level other than 0 can be wanted with the interface up. */
  ghost predicate HasLevelToLeave(cfg: Config) {
    || Witness.CanScore(cfg, 40, 79)
    || (cfg.Demotions().healthy > 0 && cfg.Checks().MaxScore() > 0)
    || (cfg.mode.Preempt? && cfg.peerEnabled && Witness.CanScore(cfg, 80, 99))
  }

  lemma LevelLeft(cfg: Config, n: Node, i: Input)
    requires cfg.Valid() && Attainable(cfg, i.health) && OnScale(i)
    requires !Assess(cfg, n, i).decision.down && Assess(cfg, n, i).decision.demotion != 0
    ensures HasLevelToLeave(cfg)
  {
    hide Attainable, Witness.CanScore, Config.Checks;
    ValidatedLevels(cfg);
    Witness.NothingToScore(cfg, i.health);
    if i.health.score < 80 {
      Witness.ScoreShows(cfg, i.health, 40, 79);
    } else if i.health.score < 100 {
      Witness.ScoreShows(cfg, i.health, 80, 99);
    }
  }

  /** A first cycle with these answers, as MASTER beside a peer that scores 100
      and does not outrank it, then a stop. */
  lemma LevelStays(cfg: Config, probes: Health.Probes)
    requires cfg.Valid() && Witness.Result(cfg, probes).score >= 40
    requires var score := Witness.Result(cfg, probes).score;
      || score < 80
      || cfg.Demotions().healthy > 0
      || (cfg.mode.Preempt? && cfg.peerEnabled && score < 100)
    ensures exists r: Run :: r.cfg == cfg && |r.ins| == 1 && LeavesALevel(r, 0)
  {
    hide Health.Evaluate, Config.Checks;
    ValidatedLevels(cfg);
    var peer := PeerHealth("a", true, 100, cfg.Demotions().degraded, 0, 0, Unclassified);
    var i := Witness.Reading(0, Witness.Result(cfg, probes), Master, [peer], 0);
    var r := Run(cfg, Witness.Fresh(), [i]);
    assert r.At(1) == Step(cfg, r.At(0), i).node;
    assert Attainable(cfg, i.health);
    assert peer in [peer];
    assert r.Booted();
  }

  /** Among peers with scores of at most 100, every stop is the documented clean
      one exactly under the configurations that never want a level other than 0
      with the interface up. */
  lemma StopAlwaysCleanIff(cfg: Config)
    requires cfg.Valid()
    ensures (exists r: Run, i: nat :: r.cfg == cfg && i < |r.ins| && LeavesALevel(r, i)) <==> HasLevelToLeave(cfg)
  {
    hide Assess, Move, Tell, After, Stop, Health.Evaluate, Config.Checks;
    if r: Run, i: nat :| r.cfg == cfg && i < |r.ins| && LeavesALevel(r, i) {
      StopIsCleanIff(r, i + 1);
      CounterFollowsDecision(r, i);
      CommandsAlternate(r, i + 1);
      assert r.At(i + 1) == r.Cycle(i).node;
      LevelLeft(cfg, r.At(i), r.ins[i]);
    }
    if HasLevelToLeave(cfg) {
      var probes := LevelProbes(cfg);
      LevelStays(cfg, probes);
    }
  }

  lemma LevelProbes(cfg: Config) returns (probes: Health.Probes)
    requires HasLevelToLeave(cfg)
    ensures var score := Witness.Result(cfg, probes).score;
      && score >= 40
      && (score < 80 || cfg.Demotions().healthy > 0 || (cfg.mode.Preempt? && cfg.peerEnabled && score < 100))
  {
    hide Health.Evaluate, Config.Checks, Witness.CanScore, Witness.Passed;
    if Witness.CanScore(cfg, 40, 79) {
      probes := Witness.ProbesFor(cfg, 40, 79);
    } else if cfg.Demotions().healthy > 0 && cfg.Checks().MaxScore() > 0 {
      Witness.ExtremeResults(cfg);
      probes := Witness.Passed(cfg);
    } else {
      probes := Witness.ProbesFor(cfg, 80, 99);
    }
  }

  /** For one, a node stopped after a cycle that scored below 80 keeps its
      degraded level. */
  lemma StopKeepsDegraded(cfg: Config, probes: Health.Probes)
    requires cfg.Valid() && 40 <= Witness.Result(cfg, probes).score < 80
    ensures var r := Run(cfg, Witness.Fresh(), [Witness.Reading(0, Witness.Result(cfg, probes), Backup, [], 0)]);
      && r.Booted()
      && Stop(r.At(1)).kernel == Kernel.State(true, cfg.Demotions().degraded)
      && cfg.Demotions().degraded > 0
  {
    hide Health.Evaluate, Config.Checks;
    var r := Run(cfg, Witness.Fresh(), [Witness.Reading(0, Witness.Result(cfg, probes), Backup, [], 0)]);
    assert r.At(1) == Step(cfg, r.start, r.ins[0]).node;
    assert Attainable(cfg, r.ins[0].health);
  }
}
