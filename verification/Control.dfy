/** One cycle of the controller as a function of the node and of what the node
    observes (internal/agent/runner.go). The class in Runner.dfy is proved to
    compute it; the theorems about runs are stated on it. */
module Control {
  import opened Basics
  import opened Config
  import Health
  import Kernel
  import Policy
  import StepDown

  datatype RunnerState = RunnerState(
    lastState: State,
    lastDemotion: int,
    lastIfaceDown: bool,
    wasMaster: bool,
    confirmState: State,
    confirmCount: int,
    preemptCooldown: Option<int>,
    kernelPreemptSince: Option<int>,
    recoveryStreak: int)

  /** A node: the agent's fields and the kernel it drives. */
  datatype Node = Node(runner: RunnerState, kernel: Kernel.State)

  /** Everything one cycle reads from outside the agent. A missing value is a
      read that failed. */
  datatype Input = Input(
    now: int,
    health: Health.HealthResult,
    carpRead: Option<CarpState>,
    peers: seq<PeerHealth>,
    demotionReadable: bool,
    skewAtStepDown: Option<int>,
    carpRefresh: Option<CarpState>,
    skewAtPrediction: Option<int>,
    skewAtGuard: Option<int>)

  datatype Transition = Transition(from: State, to: State)

  // ----- start and stop -----

  const NO_DEMOTION := -1

  /** A new agent resumes from `restored`, the last announced state. */
  function NewRunner(restored: State): RunnerState {
    RunnerState(restored, NO_DEMOTION, false, false, Healthy, 0, None, None, 0)
  }

  function StopCommands(n: Node): seq<Kernel.Command> {
    if n.runner.lastIfaceDown
    then [Kernel.IfUp] + Kernel.DemotionWrites(Kernel.Exec(n.kernel, Kernel.IfUp), 0)
    else []
  }

  function Stop(n: Node): Node {
    Node(
      n.runner.(lastIfaceDown := false),
      if n.runner.lastIfaceDown then Kernel.Exec(n.kernel, Kernel.IfUp).(demotion := 0) else n.kernel)
  }

  // ----- what the node concludes about itself -----

  datatype Assessment = Assessment(
    carp: CarpState,
    peers: seq<PeerHealth>,
    decision: Policy.Decision,
    streak: int,
    held: bool,
    state: State,
    confirmCount: int)

  function Assess(cfg: Config, n: Node, i: Input): Assessment {
    var carp := i.carpRead.GetOr(Unknown);
    var peers := if cfg.peerEnabled then i.peers else [];
    var wanted := Policy.Desired(cfg.mode, i.health.score, carp, peers, cfg.Demotions());
    var hold := Policy.ApplyRecoveryHold(cfg.mode, wanted, n.runner.lastIfaceDown, i.health.raw, i.health.max,
                                         cfg.RecoveryConfirm(), n.runner.recoveryStreak, cfg.Demotions());
    var state := if hold.held then Unhealthy else StateFromScore(i.health.score);
    Assessment(carp, peers, hold.decision, hold.streak, hold.held, state,
               if state == n.runner.confirmState then n.runner.confirmCount + 1 else 1)
  }

  // ----- what the node does to its interface -----

  function Rewrites(n: Node, k: Kernel.State, d: Policy.Decision): seq<Kernel.Command> {
    if d.demotion != n.runner.lastDemotion then Kernel.DemotionWrites(k, d.demotion) else []
  }

  function Rewritten(n: Node, k: Kernel.State, d: Policy.Decision): Kernel.State {
    if d.demotion != n.runner.lastDemotion then k.(demotion := d.demotion) else k
  }

  /** Demotion first on the way down, interface first on the way up. */
  function SettleCommands(n: Node, d: Policy.Decision): seq<Kernel.Command> {
    if d.down && !n.runner.lastIfaceDown then Rewrites(n, n.kernel, d) + [Kernel.IfDown]
    else if !d.down && n.runner.lastIfaceDown then
      [Kernel.IfUp] + Rewrites(n, Kernel.Exec(n.kernel, Kernel.IfUp), d)
    else Rewrites(n, n.kernel, d)
  }

  function Settled(n: Node, d: Policy.Decision): Kernel.State {
    if d.down && !n.runner.lastIfaceDown then Kernel.Exec(Rewritten(n, n.kernel, d), Kernel.IfDown)
    else if !d.down && n.runner.lastIfaceDown then Rewritten(n, Kernel.Exec(n.kernel, Kernel.IfUp), d)
    else Rewritten(n, n.kernel, d)
  }

  datatype Motion = Motion(
    actualDemotion: int,
    stepDown: bool,
    since: Option<int>,
    kernel: Kernel.State,
    commands: seq<Kernel.Command>)

  function Move(cfg: Config, n: Node, i: Input, a: Assessment): Motion {
    var settled := Settled(n, a.decision);
    var actual := if i.demotionReadable then settled.demotion else a.decision.demotion;
    var eligible := cfg.mode.Preempt? && !a.decision.down && a.carp.Master? && a.state.Healthy?;
    var verdict :=
      if eligible
      then StepDown.Judge(a.peers, i.skewAtStepDown.GetOr(0) + actual, n.runner.preemptCooldown,
                          n.runner.kernelPreemptSince, i.now)
      else StepDown.Verdict(false, None);
    Motion(actual, verdict.stepDown, verdict.since,
           if verdict.stepDown then Kernel.Exec(settled, Kernel.IfDown) else settled,
           SettleCommands(n, a.decision) + if verdict.stepDown then [Kernel.IfDown] else [])
  }

  // ----- what the node reports -----

  datatype Report = Report(
    carp: CarpState,
    predicted: bool,
    change: Option<Transition>,
    vipLoss: bool)

  /** Some healthy peer has an effective advskew at or below ours. */
  predicate Contested(peers: seq<PeerHealth>, mine: int) {
    exists p | p in peers :: p.Fit() && p.Effective() <= mine
  }

  /** Some healthy peer has a strictly lower effective advskew. */
  predicate Outranked(peers: seq<PeerHealth>, mine: int) {
    exists p | p in peers :: StepDown.Outranks(p, mine)
  }

  function Refreshed(n: Node, i: Input, a: Assessment, m: Motion): CarpState {
    if (a.state != n.runner.lastState || m.stepDown) && i.carpRefresh.Some? then i.carpRefresh.value else a.carp
  }

  function Tell(cfg: Config, n: Node, i: Input, a: Assessment, m: Motion): Report {
    var read := Refreshed(n, i, a, m);
    var predicted :=
      && cfg.mode.Preempt? && a.state.Healthy? && read.Backup? && i.skewAtPrediction.Some?
      && !Contested(a.peers, i.skewAtPrediction.value + m.actualDemotion);
    var carp := if predicted then Master else read;
    Report(
      carp,
      predicted,
      if a.state != n.runner.lastState && a.confirmCount >= cfg.NotifyConfirm()
      then Some(Transition(n.runner.lastState, a.state)) else None,
      && cfg.vipLossAlert && cfg.mode.Preempt? && n.runner.wasMaster && carp.Backup? && a.state.Healthy?
      && !Outranked(a.peers, i.skewAtGuard.GetOr(0) + m.actualDemotion))
  }

  // ----- the cycle -----

  datatype Outcome = Outcome(assessed: Assessment, moved: Motion, told: Report, node: Node)

  function After(n: Node, i: Input, a: Assessment, m: Motion, t: Report): Node {
    Node(
      RunnerState(
        if t.change.Some? then a.state else n.runner.lastState,
        a.decision.demotion,
        a.decision.down || m.stepDown,
        if a.state.Healthy? then t.carp.Master? else n.runner.wasMaster,
        a.state,
        a.confirmCount,
        if m.stepDown then Some(i.now) else n.runner.preemptCooldown,
        m.since,
        a.streak),
      m.kernel)
  }

  function Step(cfg: Config, n: Node, i: Input): Outcome {
    var a := Assess(cfg, n, i);
    var m := Move(cfg, n, i, a);
    var t := Tell(cfg, n, i, a, m);
    Outcome(a, m, t, After(n, i, a, m, t))
  }

  // ----- a run of cycles -----

  /** Some answers to the probes of a cycle give the result `h`. */
  ghost predicate Attainable(cfg: Config, h: Health.HealthResult)
    ensures cfg.Valid() && Attainable(cfg, h) ==> h.Sound()
  {
    SoundResults(cfg);
    exists probes :: h == Health.Evaluate(cfg.Checks(), probes)
  }

  lemma SoundResults(cfg: Config)
    ensures cfg.Valid() ==> forall probes :: Health.Evaluate(cfg.Checks(), probes).Sound()
  {
    hide Health.Evaluate;
    if cfg.Valid() {
      ValidatedLevels(cfg);
      forall probes
        ensures Health.Evaluate(cfg.Checks(), probes).Sound()
      {
        Health.ScoreMeaning(cfg.Checks(), probes);
      }
    }
  }

  /** A run of the agent: its configuration, the node it starts on and the
      inputs of its cycles. */
  datatype Run = Run(cfg: Config, start: Node, ins: seq<Input>) {

    /** The agent has just been created, on a node in whatever state, and every
        cycle's health result is what the checks return for some answers. */
    ghost predicate Started()
      ensures Started() ==> forall i | i in ins :: i.health.Sound()
    {
      assert forall i | i in ins :: cfg.Valid() && Attainable(cfg, i.health) ==> i.health.Sound();
      && cfg.Valid()
      && start.runner == NewRunner(start.runner.lastState)
      && forall i {:trigger Attainable(cfg, i.health)} | i in ins :: Attainable(cfg, i.health)
    }

    /** It was created on a node whose interface is up. */
    ghost predicate Booted() {
      Started() && start.kernel.up
    }

    /** The node before cycle `i`. */
    ghost function At(i: nat): Node
      requires i <= |ins|
    {
      if i == 0 then start else Step(cfg, At(i - 1), ins[i - 1]).node
    }

    /** What happens in cycle `i`. */
    ghost function Cycle(i: nat): Outcome
      requires i < |ins|
    {
      Step(cfg, At(i), ins[i])
    }

    /** The commands of the first `i` cycles. */
    ghost function Log(i: nat): seq<Kernel.Command>
      requires i <= |ins|
    {
      if i == 0 then [] else Log(i - 1) + Cycle(i - 1).moved.commands
    }

    /** The transitions announced in the first `i` cycles. */
    ghost function Announced(i: nat): seq<Transition>
      requires i <= |ins|
    {
      if i == 0 then []
      else
        var change := Cycle(i - 1).told.change;
        Announced(i - 1) + if change.Some? then [change.value] else []
    }

    /** One cycle more. */
    ghost function Extended(i: Input): Run { Run(cfg, start, ins + [i]) }
  }

  lemma {:induction false} ExtendedAgrees(r: Run, next: Input, i: nat)
    requires i <= |r.ins|
    ensures r.Extended(next).At(i) == r.At(i)
    ensures r.Extended(next).Log(i) == r.Log(i)
    ensures r.Extended(next).Announced(i) == r.Announced(i)
  {
    hide Step;
    if i > 0 {
      ExtendedAgrees(r, next, i - 1);
      assert r.Extended(next).ins[i - 1] == r.ins[i - 1];
    }
  }

  /** The settled kernel is the effect of the settling commands. */
  lemma SettledByCommands(n: Node, d: Policy.Decision)
    ensures Kernel.ExecAll(n.kernel, SettleCommands(n, d)) == Settled(n, d)
  {
    var down := [Kernel.IfDown];
    var up := [Kernel.IfUp];
    assert down[..0] == [] && up[..0] == [];
    if d.down && !n.runner.lastIfaceDown {
      Kernel.ExecAllConcat(n.kernel, Rewrites(n, n.kernel, d), down);
    } else if !d.down && n.runner.lastIfaceDown {
      var k := Kernel.Exec(n.kernel, Kernel.IfUp);
      Kernel.ExecAllConcat(n.kernel, up, Rewrites(n, k, d));
      assert Kernel.ExecAll(n.kernel, up) == k;
    }
  }
}
