/** Everything a run hands to the notification dispatcher and the state file. */
module Reporting {
  import opened Basics
  import opened Config
  import opened Control
  import AlertRuns
  import Notify
  import StateFile
  import Tracker

  /** Consecutive failures before a peer is declared down. */
  const PEER_DOWN_THRESHOLD := 2

  type Calls = seq<Notify.Call<Notify.Notice>>

  /** The polls of all peers in the first `i` cycles. */
  ghost function Polls(r: Run, i: nat): seq<PeerHealth>
    requires i <= |r.ins|
  {
    if i == 0 then [] else Polls(r, i - 1) + r.Cycle(i - 1).assessed.peers
  }

  function PollCalls(before: seq<PeerHealth>, p: PeerHealth, now: int): Calls {
    match Tracker.NextAlert(PEER_DOWN_THRESHOLD, before, p)
    case None => []
    case Some(status) => [Notify.Call(Notify.PeerAlert(p.ip, status), now)]
  }

  function PeerCalls(before: seq<PeerHealth>, peers: seq<PeerHealth>, now: int): Calls {
    if |peers| == 0 then []
    else
      var n := |peers| - 1;
      PeerCalls(before, peers[..n], now) + PollCalls(before + peers[..n], peers[n], now)
  }

  function ChangeCalls(change: Option<Transition>, now: int): Calls {
    match change
    case None => []
    case Some(t) => [Notify.Call(Notify.StateChange(t.from, t.to), now)]
  }

  function LossCalls(loss: bool, now: int): Calls {
    if loss then [Notify.Call(Notify.VipLoss, now)] else []
  }

  /** The dispatches of one cycle: peers first, then a state change, then the
      loss of the VIP. */
  function CycleCalls(before: seq<PeerHealth>, o: Outcome, now: int): Calls {
    PeerCalls(before, o.assessed.peers, now) + ChangeCalls(o.told.change, now) + LossCalls(o.told.vipLoss, now)
  }

  ghost function RunCalls(r: Run, i: nat): Calls
    requires i <= |r.ins|
  {
    if i == 0 then [] else RunCalls(r, i - 1) + CycleCalls(Polls(r, i - 1), r.Cycle(i - 1), r.ins[i - 1].now)
  }

  // ----- what the calls say -----

  /** The dispatches of a cycle carry its instant; those about peers come first,
      then the announced change, from the old to the new state, then the loss. */
  lemma CycleCallsExactly(before: seq<PeerHealth>, o: Outcome, now: int) returns (peerCalls: Calls)
    ensures forall c | c in peerCalls :: c.key.PeerAlert? && c.now == now
    ensures CycleCalls(before, o, now)
      == peerCalls
         + (if o.told.change.Some?
            then [Notify.Call(Notify.StateChange(o.told.change.value.from, o.told.change.value.to), now)] else [])
         + (if o.told.vipLoss then [Notify.Call(Notify.VipLoss, now)] else [])
  {
    hide PollCalls;
    peerCalls := PeerCalls(before, o.assessed.peers, now);
    OnlyPeerAlerts(before, o.assessed.peers, now);
  }

  lemma PollCallsAlert(before: seq<PeerHealth>, p: PeerHealth, now: int)
    ensures forall c | c in PollCalls(before, p, now) :: c.key.PeerAlert? && c.now == now && c.key.ip == p.ip
  {
  }

  lemma {:induction false} OnlyPeerAlerts(before: seq<PeerHealth>, peers: seq<PeerHealth>, now: int)
    ensures forall c | c in PeerCalls(before, peers, now) :: c.key.PeerAlert? && c.now == now
  {
    hide PollCalls;
    if |peers| > 0 {
      var n := |peers| - 1;
      OnlyPeerAlerts(before, peers[..n], now);
      PollCallsAlert(before + peers[..n], peers[n], now);
    }
  }

  /** The changes among the calls, with their instants. */
  function ChangesIn(calls: Calls): seq<(Transition, int)> {
    if |calls| == 0 then []
    else
      var c := calls[|calls| - 1];
      ChangesIn(calls[..|calls| - 1])
      + if c.key.StateChange? then [(Transition(c.key.from, c.key.to), c.now)] else []
  }

  /** The instants of the losses among the calls. */
  function LossesIn(calls: Calls): seq<int> {
    if |calls| == 0 then []
    else
      var c := calls[|calls| - 1];
      LossesIn(calls[..|calls| - 1]) + if c.key.VipLoss? then [c.now] else []
  }

  lemma {:induction false} InConcat(a: Calls, b: Calls)
    ensures ChangesIn(a + b) == ChangesIn(a) + ChangesIn(b)
    ensures LossesIn(a + b) == LossesIn(a) + LossesIn(b)
  {
    if |b| == 0 {
      assert a + b == a;
    } else {
      InConcat(a, b[..|b| - 1]);
      assert (a + b)[..|a + b| - 1] == a + b[..|b| - 1];
    }
  }

  lemma {:induction false} AlertsSayNeither(calls: Calls)
    requires forall c | c in calls :: c.key.PeerAlert?
    ensures ChangesIn(calls) == [] && LossesIn(calls) == []
  {
    if |calls| > 0 {
      AlertsSayNeither(calls[..|calls| - 1]);
    }
  }

  lemma OneCall(c: Notify.Call<Notify.Notice>)
    ensures ChangesIn([c]) == if c.key.StateChange? then [(Transition(c.key.from, c.key.to), c.now)] else []
    ensures LossesIn([c]) == if c.key.VipLoss? then [c.now] else []
    ensures ChangesIn([]) == [] && LossesIn([]) == []
  {
    assert [c][..0] == [];
  }

  lemma CycleSays(before: seq<PeerHealth>, o: Outcome, now: int)
    ensures ChangesIn(CycleCalls(before, o, now)) == if o.told.change.Some? then [(o.told.change.value, now)] else []
    ensures LossesIn(CycleCalls(before, o, now)) == if o.told.vipLoss then [now] else []
  {
    hide CycleCalls, ChangesIn, LossesIn;
    var p := CycleCallsExactly(before, o, now);
    var t := o.told.change.GetOr(Transition(Healthy, Healthy));
    var change, loss := Notify.Call(Notify.StateChange(t.from, t.to), now), Notify.Call(Notify.VipLoss, now);
    AlertsSayNeither(p);
    OneCall(change);
    OneCall(loss);
    var c, l := if o.told.change.Some? then [change] else [], if o.told.vipLoss then [loss] else [];
    InConcat(p, c);
    InConcat(p + c, l);
    assert CycleCalls(before, o, now) == p + c + l;
  }

  /** Every change announced in the first `i` cycles, with the instant of its
      cycle, and the instants of the cycles that report a loss. */
  ghost function ChangesOf(r: Run, i: nat): seq<(Transition, int)>
    requires i <= |r.ins|
  {
    if i == 0 then []
    else
      var change := r.Cycle(i - 1).told.change;
      ChangesOf(r, i - 1) + if change.Some? then [(change.value, r.ins[i - 1].now)] else []
  }

  ghost function LossesOf(r: Run, i: nat): seq<int>
    requires i <= |r.ins|
  {
    if i == 0 then [] else LossesOf(r, i - 1) + if r.Cycle(i - 1).told.vipLoss then [r.ins[i - 1].now] else []
  }

  /** Over every run the dispatcher is handed exactly the announced changes and
      the reported losses, in order and each at its cycle's instant. */
  lemma {:induction false} CallsFollowReports(r: Run, i: nat)
    requires i <= |r.ins|
    ensures ChangesIn(RunCalls(r, i)) == ChangesOf(r, i)
    ensures LossesIn(RunCalls(r, i)) == LossesOf(r, i)
    ensures |ChangesOf(r, i)| == |r.Announced(i)|
    ensures forall k | 0 <= k < |r.Announced(i)| :: ChangesOf(r, i)[k].0 == r.Announced(i)[k]
  {
    hide Step, CycleCalls;
    if i > 0 {
      CallsFollowReports(r, i - 1);
      var calls := CycleCalls(Polls(r, i - 1), r.Cycle(i - 1), r.ins[i - 1].now);
      CycleSays(Polls(r, i - 1), r.Cycle(i - 1), r.ins[i - 1].now);
      InConcat(RunCalls(r, i - 1), calls);
    }
  }

  /** The state file after the first `i` cycles. */
  ghost function Disk(r: Run, boot: Option<string>, i: nat): Option<string>
    requires i <= |r.ins|
  {
    if i == 0 then boot else AlertRuns.SavedBy(r.cfg, r.Cycle(i - 1).told.change, Disk(r, boot, i - 1))
  }

  /** What a restart would resume from is always the last announced state. */
  lemma {:induction false} DiskFollowsState(r: Run, boot: Option<string>, i: nat)
    requires r.cfg.stateFile && AlertRuns.Restored(r.cfg, boot) == r.start.runner.lastState
    requires i <= |r.ins|
    ensures AlertRuns.Restored(r.cfg, Disk(r, boot, i)) == r.At(i).runner.lastState
  {
    hide Step, StateFile.Stored, StateFile.Render;
    if i > 0 {
      DiskFollowsState(r, boot, i - 1);
      AlertRuns.ConfirmStep(r.cfg, r.At(i - 1), r.ins[i - 1]);
      StateFile.RoundTrip(r.At(i).runner.lastState);
    }
  }

  /** Without a configured file, whatever lies there stays as it is. */
  lemma {:induction false} NoFileNoWrite(r: Run, boot: Option<string>, i: nat)
    requires !r.cfg.stateFile && i <= |r.ins|
    ensures Disk(r, boot, i) == boot
  {
    hide Step;
    if i > 0 {
      NoFileNoWrite(r, boot, i - 1);
    }
  }

  lemma {:induction false} ExtendedReports(r: Run, next: Input, boot: Option<string>, i: nat)
    requires i <= |r.ins|
    ensures Polls(r.Extended(next), i) == Polls(r, i)
    ensures RunCalls(r.Extended(next), i) == RunCalls(r, i)
    ensures Disk(r.Extended(next), boot, i) == Disk(r, boot, i)
  {
    hide Step, CycleCalls, AlertRuns.SavedBy;
    if i > 0 {
      ExtendedReports(r, next, boot, i - 1);
      ExtendedAgrees(r, next, i - 1);
      assert r.Extended(next).ins[i - 1] == r.ins[i - 1];
    }
  }

  /** One more cycle at the end of a run. */
  lemma OneMoreCycle(r: Run, next: Input, boot: Option<string>)
    ensures var n, r' := |r.ins|, r.Extended(next);
      var o := Step(r.cfg, r.At(n), next);
      && r'.At(n + 1) == o.node
      && r'.Log(n + 1) == r.Log(n) + o.moved.commands
      && Polls(r', n + 1) == Polls(r, n) + o.assessed.peers
      && RunCalls(r', n + 1) == RunCalls(r, n) + CycleCalls(Polls(r, n), o, next.now)
      && Disk(r', boot, n + 1) == AlertRuns.SavedBy(r.cfg, o.told.change, Disk(r, boot, n))
  {
    hide Step, CycleCalls, AlertRuns.SavedBy;
    var n := |r.ins|;
    ExtendedAgrees(r, next, n);
    ExtendedReports(r, next, boot, n);
    assert r.Extended(next).ins[n] == next;
  }

  lemma PeerCallsSnoc(before: seq<PeerHealth>, peers: seq<PeerHealth>, n: nat, now: int)
    requires n < |peers|
    ensures PeerCalls(before, peers[..n + 1], now)
      == PeerCalls(before, peers[..n], now) + PollCalls(before + peers[..n], peers[n], now)
  {
    assert peers[..n + 1][..n] == peers[..n];
  }
}
