/** The agent as the program builds it: an object whose cycle updates its fields,
    the kernel, the tracker, the dispatcher and the state file in place
    (internal/agent/runner.go). */
module Runner {
  import opened Basics
  import opened Config
  import opened Control
  import AlertRuns
  import Health
  import Kernel
  import KernelRuns
  import Notify
  import PeerRuns
  import Policy
  import Reporting
  import StateFile
  import StepDown
  import Tracker

  method IsContested(peers: seq<PeerHealth>, mine: int) returns (found: bool)
    ensures found == Contested(peers, mine)
  {
    for n := 0 to |peers|
      invariant forall p | p in peers[..n] :: !(p.Fit() && p.Effective() <= mine)
    {
      if peers[n].ok && peers[n].score >= HEALTHY_SCORE && peers[n].Effective() <= mine {
        return true;
      }
    }
    return false;
  }

  method IsOutranked(peers: seq<PeerHealth>, mine: int) returns (found: bool)
    ensures found == Outranked(peers, mine)
  {
    for n := 0 to |peers|
      invariant forall p | p in peers[..n] :: !StepDown.Outranks(p, mine)
    {
      if peers[n].ok && peers[n].score >= HEALTHY_SCORE && peers[n].Effective() < mine {
        assert peers[n] in peers && StepDown.Outranks(peers[n], mine);
        return true;
      }
    }
    return false;
  }

  class Runner {
    const cfg: Config
    const kernel: Kernel.Kernel
    const peers: Tracker.PeerTracker
    const notifier: Notify.EventDispatcher
    const file: StateFile.File

    var lastHealth: Option<Health.HealthResult>
    var lastState: State
    var lastDemotion: int
    var lastIfaceDown: bool
    var wasMaster: bool
    var confirmState: State
    var confirmCount: int
    var preemptCooldown: Option<int>
    var kernelPreemptSince: Option<int>
    var recoveryStreak: int

    /** The cycles so far, and what the state file held at the start. */
    ghost var run: Run
    ghost const bootDisk: Option<string>

    ghost function Fields(): RunnerState
      reads this
    {
      RunnerState(lastState, lastDemotion, lastIfaceDown, wasMaster, confirmState, confirmCount,
                  preemptCooldown, kernelPreemptSince, recoveryStreak)
    }

    ghost function View(): Node
      reads this, kernel
    {
      Node(Fields(), kernel.View())
    }

    ghost predicate TracksPolls(polls: seq<PeerHealth>)
      reads peers
    {
      && peers.threshold == Reporting.PEER_DOWN_THRESHOLD
      && forall ip :: peers.RecOf(ip) == Tracker.RecAfter(Reporting.PEER_DOWN_THRESHOLD, Tracker.HistoryOf(polls, ip))
    }

    /** The object is where its whole history of inputs puts it. */
    ghost predicate Valid()
      reads this, kernel, peers, notifier, notifier.cooldown, file
    {
      && run.cfg == cfg && run.Started()
      && run.start.runner.lastState == AlertRuns.Restored(cfg, bootDisk)
      && View() == run.At(|run.ins|)
      && kernel.Valid() && kernel.boot == run.start.kernel && kernel.log == run.Log(|run.ins|)
      && TracksPolls(Reporting.Polls(run, |run.ins|))
      && notifier.Valid() && notifier.cooldown.duration == cfg.cooldown
      && notifier.calls == Reporting.RunCalls(run, |run.ins|)
      && file.content == Reporting.Disk(run, bootDisk, |run.ins|)
    }

    constructor (cfg: Config, kernel: Kernel.Kernel, file: StateFile.File)
      requires cfg.Valid()
      requires kernel.Valid() && kernel.log == []
      ensures Valid() && this.cfg == cfg && this.kernel == kernel && this.file == file
      ensures fresh(peers) && fresh(notifier) && fresh(notifier.cooldown)
      ensures run.ins == [] && bootDisk == file.content
      ensures View() == Node(NewRunner(AlertRuns.Restored(cfg, file.content)), kernel.View())
    {
      this.cfg, this.kernel, this.file := cfg, kernel, file;
      lastHealth := None;
      lastDemotion, lastIfaceDown, wasMaster := NO_DEMOTION, false, false;
      confirmState, confirmCount := Healthy, 0;
      preemptCooldown, kernelPreemptSince, recoveryStreak := None, None, 0;
      var restored := Healthy;
      if cfg.stateFile {
        var loaded := file.LoadState();
        if loaded.Some? {
          restored := loaded.value;
        }
      }
      lastState := restored;
      peers := new Tracker.PeerTracker(Reporting.PEER_DOWN_THRESHOLD);
      notifier := new Notify.EventDispatcher(cfg.cooldown);
      bootDisk := file.content;
      run := Run(cfg, Node(NewRunner(restored), kernel.View()), []);
    }

    /** What the run theorems say of the live object: if it started with the
        interface up, its flag is the kernel's and every interface command it
        ever issued changed the interface; a recorded status is the latest
        classification of a peer declared down; and the state file holds what
        was last announced. */
    lemma LiveFacts()
      requires Valid()
      ensures kernel.up ==> !lastIfaceDown
      ensures kernel.boot.up ==> kernel.up == !lastIfaceDown && Kernel.Alternates(kernel.boot, kernel.log)
      ensures var polls := Reporting.Polls(run, |run.ins|);
        forall ip ::
          Tracker.Reflects(Reporting.PEER_DOWN_THRESHOLD, Tracker.HistoryOf(polls, ip), peers.RecOf(ip))
      ensures cfg.stateFile ==> AlertRuns.Restored(cfg, file.content) == lastState
    {
      hide Step, Tracker.Reflects, Tracker.RecAfter, AlertRuns.Restored, Notify.EventDispatcher.Valid;
      KernelRuns.FlagAgreesExactlyWhen(run, |run.ins|);
      if kernel.boot.up {
        KernelRuns.CommandsAlternate(run, |run.ins|);
      }
      if cfg.stateFile {
        Reporting.DiskFollowsState(run, bootDisk, |run.ins|);
      }
      var polls := Reporting.Polls(run, |run.ins|);
      forall ip
        ensures Tracker.Reflects(Reporting.PEER_DOWN_THRESHOLD, Tracker.HistoryOf(polls, ip), peers.RecOf(ip))
      {
        Tracker.RecordIsHistory(Reporting.PEER_DOWN_THRESHOLD, Tracker.HistoryOf(polls, ip));
      }
    }

    /** What the dispatcher was handed, and what it handed on: the changes and
        losses of the run's cycles, what each peer's polls call for, and of every
        notice the sends its own cooldown lets through. */
    lemma DispatchFacts()
      requires Valid()
      ensures Reporting.ChangesIn(notifier.calls) == Reporting.ChangesOf(run, |run.ins|)
      ensures Reporting.LossesIn(notifier.calls) == Reporting.LossesOf(run, |run.ins|)
      ensures forall ip ::
        PeerRuns.StatusesFor(notifier.calls, ip)
        == PeerRuns.StatusesOf(2, Tracker.HistoryOf(Reporting.Polls(run, |run.ins|), ip))
      ensures forall n :: multiset(notifier.outbox)[n] == |Notify.Sends(cfg.cooldown, notifier.calls, n)|
    {
      hide Step, TracksPolls, Kernel.Kernel.Valid, Notify.Delivered, Notify.Sends;
      hide Reporting.RunCalls, Reporting.Disk, Reporting.Polls, Run.At, Run.Log, Tracker.HistoryOf;
      Reporting.CallsFollowReports(run, |run.ins|);
      forall ip
        ensures PeerRuns.StatusesFor(notifier.calls, ip)
          == PeerRuns.StatusesOf(2, Tracker.HistoryOf(Reporting.Polls(run, |run.ins|), ip))
      {
        PeerRuns.AlertsFollowHistory(run, |run.ins|, ip);
      }
      forall n
        ensures multiset(notifier.outbox)[n] == |Notify.Sends(cfg.cooldown, notifier.calls, n)|
      {
        Notify.DeliveredCounts(cfg.cooldown, notifier.calls, n);
      }
    }

    // ----- the steps of a cycle -----

    /** Health, policy, recovery hold and debounce: what the node concludes. */
    method Conclude(ghost n: Node, ghost i: Input, health: Health.HealthResult, carpRead: Option<CarpState>,
                    seen: seq<PeerHealth>)
      returns (carp: CarpState, decision: Policy.Decision, held: bool, currentState: State, stateChanged: bool)
      requires n.runner == Fields()
      requires health == i.health && carpRead == i.carpRead && seen == if cfg.peerEnabled then i.peers else []
      modifies this`recoveryStreak, this`confirmState, this`confirmCount
      ensures Assess(cfg, n, i) == Assessment(carp, seen, decision, recoveryStreak, held, currentState, confirmCount)
      ensures confirmState == currentState && stateChanged == (currentState != lastState)
    {
      currentState := StateFromScore(health.score);
      stateChanged := currentState != lastState;
      carp := if carpRead.Some? then carpRead.value else Unknown;

      decision := Policy.EvaluatePolicy(cfg.mode, health.score, carp, seen, cfg.Demotions());
      var hold := Policy.ApplyRecoveryHold(cfg.mode, decision, lastIfaceDown, health.raw, health.max,
                                           cfg.RecoveryConfirm(), recoveryStreak, cfg.Demotions());
      decision, recoveryStreak, held := hold.decision, hold.streak, hold.held;
      if held {
        currentState := Unhealthy;
        stateChanged := currentState != lastState;
      }

      if currentState == confirmState {
        confirmCount := confirmCount + 1;
      } else {
        confirmState := currentState;
        confirmCount := 1;
      }
    }

    /** Step 1: interface and demotion, each in the order its direction needs. */
    method Settle(ghost n: Node, decision: Policy.Decision)
      requires kernel.Valid() && kernel.View() == n.kernel
      requires lastIfaceDown == n.runner.lastIfaceDown && lastDemotion == n.runner.lastDemotion
      modifies this`lastIfaceDown, this`lastDemotion, kernel
      ensures kernel.Valid() && kernel.View() == Settled(n, decision)
      ensures kernel.log == old(kernel.log) + SettleCommands(n, decision)
      ensures lastIfaceDown == decision.down && lastDemotion == decision.demotion
    {
      hide Kernel.ExecAll;
      if decision.down && !lastIfaceDown {
        if decision.demotion != lastDemotion {
          kernel.SetDemotion(decision.demotion);
        }
        kernel.InterfaceDown();
        lastIfaceDown := true;
        lastDemotion := decision.demotion;
      } else if !decision.down && lastIfaceDown {
        kernel.InterfaceUp();
        if decision.demotion != lastDemotion {
          kernel.SetDemotion(decision.demotion);
        }
        lastIfaceDown := false;
        lastDemotion := decision.demotion;
      } else if decision.demotion != lastDemotion {
        kernel.SetDemotion(decision.demotion);
        lastDemotion := decision.demotion;
      }
    }

    /** Steps 1 and 2: settle the interface, read the demotion back and step down
        for a better peer. */
    method Drive(ghost n: Node, ghost i: Input, ghost a: Assessment, now: int, demotionReadable: bool,
                 skew: Option<int>, carp: CarpState, decision: Policy.Decision, seen: seq<PeerHealth>,
                 currentState: State)
      returns (actualDemotion: int, stepDown: bool)
      requires kernel.Valid() && kernel.View() == n.kernel
      requires lastIfaceDown == n.runner.lastIfaceDown && lastDemotion == n.runner.lastDemotion
      requires preemptCooldown == n.runner.preemptCooldown && kernelPreemptSince == n.runner.kernelPreemptSince
      requires a.carp == carp && a.decision == decision && a.peers == seen && a.state == currentState
      requires i.now == now && i.demotionReadable == demotionReadable && i.skewAtStepDown == skew
      modifies this`lastIfaceDown, this`lastDemotion, this`preemptCooldown, this`kernelPreemptSince, kernel
      ensures kernel.Valid()
      ensures var m := Move(cfg, n, i, a);
        && actualDemotion == m.actualDemotion && stepDown == m.stepDown
        && kernel.View() == m.kernel && kernel.log == old(kernel.log) + m.commands
        && kernelPreemptSince == m.since
      ensures lastIfaceDown == (decision.down || stepDown) && lastDemotion == decision.demotion
      ensures stepDown ==> !decision.down
      ensures preemptCooldown == if stepDown then Some(now) else n.runner.preemptCooldown
    {
      hide Settled, SettleCommands, Kernel.ExecAll, StepDown.Judge;
      Settle(n, decision);

      actualDemotion := decision.demotion;
      if demotionReadable {
        actualDemotion := kernel.GetDemotion();
      }

      stepDown := false;
      if cfg.mode == Preempt && !decision.down && carp == Master && currentState == Healthy {
        var localSkew := if skew.Some? then skew.value else 0;
        var verdict := StepDown.Scan(seen, localSkew + actualDemotion, preemptCooldown, kernelPreemptSince, now);
        if verdict.stepDown {
          kernel.InterfaceDown();
          lastIfaceDown := true;
          preemptCooldown := Some(now);
          stepDown := true;
        }
        kernelPreemptSince := verdict.since;
      } else {
        kernelPreemptSince := None;
      }
    }

    /** Steps 3 and 4: the CARP role to report, refreshed and predicted. */
    method ReportedRole(ghost n: Node, ghost i: Input, ghost a: Assessment, ghost m: Motion, carpRead: CarpState,
                        carpRefresh: Option<CarpState>, skew: Option<int>, refresh: bool, actualDemotion: int,
                        seen: seq<PeerHealth>, currentState: State)
      returns (notificationCarp: CarpState)
      requires a.carp == carpRead && a.peers == seen && a.state == currentState && m.actualDemotion == actualDemotion
      requires i.carpRefresh == carpRefresh && i.skewAtPrediction == skew
      requires refresh == (a.state != n.runner.lastState || m.stepDown)
      ensures notificationCarp == Tell(cfg, n, i, a, m).carp
    {
      notificationCarp := carpRead;
      if refresh {
        if carpRefresh.Some? {
          notificationCarp := carpRefresh.value;
        }
      }
      if cfg.mode == Preempt && currentState == Healthy && notificationCarp == Backup {
        if skew.Some? {
          var contested := IsContested(seen, skew.value + actualDemotion);
          if !contested {
            notificationCarp := Master;
          }
        }
      }
    }

    /** One entry of the peer list: poll, classify, dispatch. */
    method HandlePeer(p: PeerHealth, now: int, ghost before: seq<PeerHealth>)
      requires TracksPolls(before) && notifier.Valid()
      modifies peers, notifier, notifier.cooldown
      ensures TracksPolls(before + [p]) && notifier.Valid()
      ensures notifier.calls == old(notifier.calls) + Reporting.PollCalls(before, p, now)
    {
      hide Tracker.StatusOf, Tracker.RecAfter, Tracker.HistoryOf, Notify.Delivered, Notify.Keyed;
      ghost var handled := Tracker.Handle(Reporting.PEER_DOWN_THRESHOLD, peers.RecOf(p.ip), p);
      ghost var calls := notifier.calls;
      Notify.StatusesAreClean(Reporting.PEER_DOWN_THRESHOLD, peers.RecOf(p.ip), p);
      label start:
      var wentDown, cameUp := peers.Update(p.ip, p.ok);
      var status := Tracker.StatusOf(p.severity);
      var known := peers.Status(p.ip);
      if wentDown {
        peers.SetStatus(p.ip, status);
        notifier.Dispatch(Notify.PeerAlert(p.ip, status), now);
      } else if cameUp {
        peers.SetStatus(p.ip, "");
        notifier.Dispatch(Notify.PeerAlert(p.ip, Tracker.UP_STATUS), now);
      } else if !p.ok && known != "" && status != known {
        peers.SetStatus(p.ip, status);
        notifier.Dispatch(Notify.PeerAlert(p.ip, status), now);
      } else if !p.ok && p.severity == Critical {
        notifier.Dispatch(Notify.PeerAlert(p.ip, status), now);
      } else {
        assert calls + [] == calls;
      }
      assert peers.RecOf(p.ip) == handled.rec;
      forall ip
        ensures peers.RecOf(ip) == Tracker.RecAfter(Reporting.PEER_DOWN_THRESHOLD, Tracker.HistoryOf(before + [p], ip))
      {
        Tracker.NextRecord(Reporting.PEER_DOWN_THRESHOLD, before, p, ip);
        assert ip != p.ip ==> peers.RecOf(ip) == old@start(peers.RecOf(ip));
      }
    }

    lemma NoPeersNoCalls(before: seq<PeerHealth>, now: int)
      ensures Reporting.PeerCalls(before, [], now) == []
    {
    }

    method HandlePeers(seen: seq<PeerHealth>, now: int, ghost before: seq<PeerHealth>)
      requires TracksPolls(before) && notifier.Valid()
      modifies peers, notifier, notifier.cooldown
      ensures TracksPolls(before + seen) && notifier.Valid()
      ensures notifier.calls == old(notifier.calls) + Reporting.PeerCalls(before, seen, now)
    {
      hide TracksPolls, Reporting.PeerCalls, Reporting.PollCalls, Notify.Delivered, Notify.Keyed;
      ghost var calls := notifier.calls;
      assert Reporting.PeerCalls(before, [], now) == [] by {
        NoPeersNoCalls(before, now);
      }
      assert seen[..0] == [];
      assert before + seen[..0] == before && calls + [] == calls;
      for n := 0 to |seen|
        invariant TracksPolls(before + seen[..n]) && notifier.Valid()
        invariant notifier.calls == calls + Reporting.PeerCalls(before, seen[..n], now)
      {
        HandlePeer(seen[n], now, before + seen[..n]);
        Reporting.PeerCallsSnoc(before, seen, n, now);
        assert before + seen[..n] + [seen[n]] == before + seen[..n + 1];
      }
      assert seen[..|seen|] == seen;
    }

    /** A confirmed change of state is announced and saved. */
    method AnnounceChange(ghost n: Node, ghost i: Input, ghost a: Assessment, ghost m: Motion, now: int,
                          stateChanged: bool, currentState: State)
      requires notifier.Valid()
      requires lastState == n.runner.lastState && confirmCount == a.confirmCount && a.state == currentState
      requires stateChanged == (a.state != n.runner.lastState)
      modifies this`lastState, notifier, notifier.cooldown, file
      ensures notifier.Valid()
      ensures var change := Tell(cfg, n, i, a, m).change;
        && notifier.calls == old(notifier.calls) + Reporting.ChangeCalls(change, now)
        && file.content == AlertRuns.SavedBy(cfg, change, old(file.content))
        && lastState == if change.Some? then a.state else n.runner.lastState
    {
      hide StateFile.Render, Notify.Delivered, Notify.Keyed, Contested, Outranked;
      ghost var calls := notifier.calls;
      if stateChanged && confirmCount >= cfg.NotifyConfirm() {
        notifier.Dispatch(Notify.StateChange(lastState, currentState), now);
        lastState := currentState;
        if cfg.stateFile {
          file.SaveState(lastState);
        }
      } else {
        assert calls + [] == calls;
      }
    }

    /** The split-brain guard, and the role remembered for the next cycle. */
    method GuardVip(ghost n: Node, ghost i: Input, ghost a: Assessment, ghost m: Motion, now: int,
                    currentState: State, notificationCarp: CarpState, actualDemotion: int, skew: Option<int>,
                    seen: seq<PeerHealth>)
      requires notifier.Valid()
      requires wasMaster == n.runner.wasMaster
      requires a.state == currentState && a.peers == seen && m.actualDemotion == actualDemotion
      requires i.skewAtGuard == skew
      requires notificationCarp == Tell(cfg, n, i, a, m).carp
      modifies this`wasMaster, notifier, notifier.cooldown
      ensures notifier.Valid()
      ensures var t := Tell(cfg, n, i, a, m);
        && notifier.calls == old(notifier.calls) + Reporting.LossCalls(t.vipLoss, now)
        && wasMaster == if a.state.Healthy? then t.carp.Master? else n.runner.wasMaster
    {
      hide Notify.Delivered, Notify.Keyed, Contested, Outranked;
      ghost var calls := notifier.calls;
      assert calls + [] == calls;
      if cfg.vipLossAlert && cfg.mode == Preempt && wasMaster && notificationCarp == Backup && currentState == Healthy {
        var localSkew := if skew.Some? then skew.value else 0;
        var justified := IsOutranked(seen, localSkew + actualDemotion);
        if !justified {
          notifier.Dispatch(Notify.VipLoss, now);
        }
      }
      if currentState == Healthy {
        wasMaster := notificationCarp == Master;
      }
    }

    /** Everything a cycle dispatches, in order. */
    method ReportAll(ghost n: Node, ghost i: Input, ghost a: Assessment, ghost m: Motion, ghost polls: seq<PeerHealth>,
                     now: int, stateChanged: bool, currentState: State, notificationCarp: CarpState,
                     actualDemotion: int, skew: Option<int>, seen: seq<PeerHealth>)
      requires TracksPolls(polls) && notifier.Valid()
      requires lastState == n.runner.lastState && wasMaster == n.runner.wasMaster && confirmCount == a.confirmCount
      requires a.state == currentState && a.peers == seen && m.actualDemotion == actualDemotion
      requires i.skewAtGuard == skew
      requires stateChanged == (a.state != n.runner.lastState)
      requires notificationCarp == Tell(cfg, n, i, a, m).carp
      modifies this`lastState, this`wasMaster, peers, notifier, notifier.cooldown, file
      ensures TracksPolls(polls + seen) && notifier.Valid()
      ensures var t := Tell(cfg, n, i, a, m);
        && notifier.calls == old(notifier.calls) + (Reporting.PeerCalls(polls, seen, now)
             + Reporting.ChangeCalls(t.change, now) + Reporting.LossCalls(t.vipLoss, now))
        && file.content == AlertRuns.SavedBy(cfg, t.change, old(file.content))
        && lastState == (if t.change.Some? then a.state else n.runner.lastState)
        && wasMaster == (if a.state.Healthy? then t.carp.Master? else n.runner.wasMaster)
    {
      hide Tell, TracksPolls, Notify.EventDispatcher.Valid;
      hide Reporting.PeerCalls, Reporting.ChangeCalls, Reporting.LossCalls, AlertRuns.SavedBy;
      ghost var calls, t := notifier.calls, Tell(cfg, n, i, a, m);
      HandlePeers(seen, now, polls);
      AnnounceChange(n, i, a, m, now, stateChanged, currentState);
      GuardVip(n, i, a, m, now, currentState, notificationCarp, actualDemotion, skew, seen);
      Regroup(calls, Reporting.PeerCalls(polls, seen, now), Reporting.ChangeCalls(t.change, now),
              Reporting.LossCalls(t.vipLoss, now));
    }

    lemma Regroup(a: Reporting.Calls, b: Reporting.Calls, c: Reporting.Calls, d: Reporting.Calls)
      ensures a + b + c + d == a + (b + c + d)
    {
    }

    /** The steps of a cycle, in order. */
    method Perform(ghost n: Node, ghost i: Input, ghost polls: seq<PeerHealth>, now: int, health: Health.HealthResult,
                   carpRead: Option<CarpState>, seen: seq<PeerHealth>, demotionReadable: bool,
                   skewAtStepDown: Option<int>, carpRefresh: Option<CarpState>, skewAtPrediction: Option<int>,
                   skewAtGuard: Option<int>)
      requires n == View() && seen == if cfg.peerEnabled then i.peers else []
      requires i == Input(now, health, carpRead, i.peers, demotionReadable, skewAtStepDown, carpRefresh,
                          skewAtPrediction, skewAtGuard)
      requires kernel.Valid() && TracksPolls(polls) && notifier.Valid()
      modifies this`lastState, this`lastDemotion, this`lastIfaceDown, this`wasMaster, this`confirmState,
        this`confirmCount, this`preemptCooldown, this`kernelPreemptSince, this`recoveryStreak,
        kernel, peers, notifier, notifier.cooldown, file
      ensures kernel.Valid() && notifier.Valid()
      ensures var o := Step(cfg, n, i);
        && Fields() == o.node.runner && kernel.View() == o.node.kernel
        && kernel.log == old(kernel.log) + o.moved.commands
        && TracksPolls(polls + o.assessed.peers)
        && notifier.calls == old(notifier.calls) + Reporting.CycleCalls(polls, o, now)
        && file.content == AlertRuns.SavedBy(cfg, o.told.change, old(file.content))
    {
      hide Assess, Move, Tell, TracksPolls, Kernel.Kernel.Valid, Notify.EventDispatcher.Valid;
      hide Reporting.PeerCalls, Reporting.ChangeCalls, Reporting.LossCalls, AlertRuns.SavedBy;
      ghost var a := Assess(cfg, n, i);
      ghost var m := Move(cfg, n, i, a);
      var carp, decision, held, currentState, stateChanged := Conclude(n, i, health, carpRead, seen);
      var actualDemotion, stepDown :=
        Drive(n, i, a, now, demotionReadable, skewAtStepDown, carp, decision, seen, currentState);
      var notificationCarp := ReportedRole(n, i, a, m, carp, carpRefresh, skewAtPrediction,
                                           stateChanged || lastIfaceDown != decision.down, actualDemotion, seen,
                                           currentState);
      ReportAll(n, i, a, m, polls, now, stateChanged, currentState, notificationCarp, actualDemotion, skewAtGuard,
                seen);
    }

    /** One cycle. The object moves to where the run extended by this cycle's
        input puts it. */
    method RunOnce(now: int, probes: Health.Probes, carpRead: Option<CarpState>, peerHealths: seq<PeerHealth>,
                   demotionReadable: bool, skewAtStepDown: Option<int>, carpRefresh: Option<CarpState>,
                   skewAtPrediction: Option<int>, skewAtGuard: Option<int>)
      requires Valid()
      modifies this, kernel, peers, notifier, notifier.cooldown, file
      ensures Valid()
      ensures lastHealth == Some(Health.Evaluate(cfg.Checks(), probes))
      ensures run == old(run).Extended(Input(now, Health.Evaluate(cfg.Checks(), probes), carpRead, peerHealths,
                                             demotionReadable, skewAtStepDown, carpRefresh, skewAtPrediction,
                                             skewAtGuard))
    {
      hide Step, Health.Evaluate, TracksPolls, Kernel.Kernel.Valid, Notify.EventDispatcher.Valid;
      hide Reporting.CycleCalls, AlertRuns.SavedBy, Reporting.Polls, Reporting.RunCalls, Reporting.Disk;
      hide Run.At, Run.Log;
      var health := Health.RunChecks(cfg.Checks(), probes);
      lastHealth := Some(health);
      assert Attainable(cfg, health);
      ghost var i := Input(now, health, carpRead, peerHealths, demotionReadable, skewAtStepDown, carpRefresh,
                           skewAtPrediction, skewAtGuard);
      Reporting.OneMoreCycle(run, i, bootDisk);
      var seen := if cfg.peerEnabled then peerHealths else [];
      Perform(View(), i, Reporting.Polls(run, |run.ins|), now, health, carpRead, seen, demotionReadable,
              skewAtStepDown, carpRefresh, skewAtPrediction, skewAtGuard);
      run := run.Extended(i);
    }

    /** Graceful shutdown: interface back up, demotion cleared if it was down,
        last announced state on disk. */
    method Stop()
      requires Valid()
      modifies this`lastIfaceDown, kernel, file
      ensures View() == Control.Stop(old(View()))
      ensures kernel.Valid() && kernel.log == old(kernel.log) + StopCommands(old(View()))
      ensures file.content == if cfg.stateFile then Some(StateFile.Render(lastState)) else old(file.content)
    {
      hide Kernel.ExecAll, StateFile.Render, TracksPolls, Step, Notify.EventDispatcher.Valid;
      if lastIfaceDown {
        kernel.InterfaceUp();
        kernel.SetDemotion(0);
        lastIfaceDown := false;
      }
      if cfg.stateFile {
        file.SaveState(lastState);
      }
    }
  }
}
