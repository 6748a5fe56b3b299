/** Peer alerts over whole runs: what the dispatcher is handed about a peer is a
    function of that peer's own history of polls. */
module PeerRuns {
  import opened Basics
  import opened Control
  import opened Reporting
  import Tracker

  /** The statuses dispatched about `ip`, in order. */
  function StatusesFor(calls: Calls, ip: string): seq<string> {
    if |calls| == 0 then []
    else
      var last := calls[|calls| - 1].key;
      StatusesFor(calls[..|calls| - 1], ip) + if last.PeerAlert? && last.ip == ip then [last.status] else []
  }

  /** The statuses a history of polls of one peer gives rise to. */
  function StatusesOf(threshold: int, h: Tracker.History): seq<string> {
    if |h| == 0 then []
    else
      var alert := Tracker.AlertAt(threshold, h, |h| - 1);
      StatusesOf(threshold, h[..|h| - 1]) + if alert.Some? then [alert.value] else []
  }

  lemma {:induction false} StatusesForConcat(a: Calls, b: Calls, ip: string)
    ensures StatusesFor(a + b, ip) == StatusesFor(a, ip) + StatusesFor(b, ip)
  {
    if |b| == 0 {
      assert a + b == a;
    } else {
      StatusesForConcat(a, b[..|b| - 1], ip);
      assert (a + b)[..|a + b| - 1] == a + b[..|b| - 1];
    }
  }

  lemma OnePoll(before: seq<PeerHealth>, p: PeerHealth, now: int, ip: string)
    ensures StatusesOf(2, Tracker.HistoryOf(before + [p], ip))
      == StatusesOf(2, Tracker.HistoryOf(before, ip)) + StatusesFor(PollCalls(before, p, now), ip)
  {
    hide Tracker.Handle, Tracker.RecAfter;
    var all, h := before + [p], Tracker.HistoryOf(before, ip);
    assert all[..|all| - 1] == before;
    if p.ip == ip {
      assert (h + [p])[..|h|] == h;
    } else {
      assert h + [] == h;
    }
  }

  lemma {:induction false} ManyPolls(before: seq<PeerHealth>, peers: seq<PeerHealth>, now: int, ip: string)
    ensures StatusesOf(2, Tracker.HistoryOf(before + peers, ip))
      == StatusesOf(2, Tracker.HistoryOf(before, ip)) + StatusesFor(PeerCalls(before, peers, now), ip)
  {
    hide Tracker.HistoryOf, PollCalls, StatusesOf, StatusesFor;
    if |peers| == 0 {
      assert before + peers == before;
      NoCallsSayNothing(ip);
    } else {
      var front, last := peers[..|peers| - 1], peers[|peers| - 1];
      ManyPolls(before, front, now, ip);
      OnePoll(before + front, last, now, ip);
      assert before + front + [last] == before + peers;
      StatusesForConcat(PeerCalls(before, front, now), PollCalls(before + front, last, now), ip);
    }
  }

  lemma OthersSayNothing(t: Option<Transition>, loss: bool, now: int, ip: string)
    ensures StatusesFor(ChangeCalls(t, now), ip) == [] && StatusesFor(LossCalls(loss, now), ip) == []
  {
  }

  /** Over every run, the statuses dispatched about a peer are exactly those its
      own polls call for with 2 failures for an outage; other peers, state changes and VIP losses play no
      part, and no peer need be listed only once. */
  lemma {:induction false} AlertsFollowHistory(r: Run, i: nat, ip: string)
    requires i <= |r.ins|
    ensures StatusesFor(RunCalls(r, i), ip) == StatusesOf(2, Tracker.HistoryOf(Polls(r, i), ip))
  {
    hide Step, Tracker.HistoryOf, PeerCalls, ChangeCalls, LossCalls, StatusesOf, StatusesFor;
    if i == 0 {
      NoPolls(ip);
      NoCallsSayNothing(ip);
    } else {
      AlertsFollowHistory(r, i - 1, ip);
      var o, now, before := r.Cycle(i - 1), r.ins[i - 1].now, Polls(r, i - 1);
      var c, l := ChangeCalls(o.told.change, now), LossCalls(o.told.vipLoss, now);
      var p := PeerCalls(before, o.assessed.peers, now);
      ManyPolls(before, o.assessed.peers, now, ip);
      OthersSayNothing(o.told.change, o.told.vipLoss, now, ip);
      StatusesForConcat(p, c, ip);
      StatusesForConcat(p + c, l, ip);
      StatusesForConcat(RunCalls(r, i - 1), p + c + l, ip);
    }
  }

  lemma NoCallsSayNothing(ip: string)
    ensures StatusesFor([], ip) == []
  {
  }

  lemma NoPolls(ip: string)
    ensures StatusesOf(2, Tracker.HistoryOf([], ip)) == []
  {
  }
}
