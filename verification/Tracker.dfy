/** Which peer transitions are worth an alert (internal/agent/peer_tracker.go
    and the peer loop of a cycle). */
module Tracker {
  import opened Basics

  const UP_STATUS := "UP (recovered)"

  const UNREACHABLE_STATUS := "DOWN (unreachable)"
  const HOST_DOWN_STATUS := "DOWN (host unreachable)"
  const AGENT_ONLY_STATUS := "DEGRADED (agent down, DNS serving)"
  const CRITICAL_STATUS := "CRITICAL (host up, DNS not serving)"

  /** The status a failed heartbeat is announced with. */
  function StatusOf(severity: Severity): string {
    match severity
    case Unclassified => UNREACHABLE_STATUS
    case HostDown => HOST_DOWN_STATUS
    case AgentOnly => AGENT_ONLY_STATUS
    case Critical => CRITICAL_STATUS
  }

  lemma StatusLength(a: Severity)
    ensures |StatusOf(a)| == match a
      case Unclassified => 18
      case HostDown => 23
      case AgentOnly => 34
      case Critical => 35
  {
  }

  lemma CriticalIsClean()
    ensures ':' !in CRITICAL_STATUS
  {
  }

  lemma AgentOnlyIsClean()
    ensures ':' !in AGENT_ONLY_STATUS
  {
  }

  /** No status contains a colon. */
  lemma StatusIsClean(a: Severity)
    ensures ':' !in StatusOf(a)
  {
    hide CRITICAL_STATUS, AGENT_ONLY_STATUS;
    CriticalIsClean();
    AgentOnlyIsClean();
  }

  /** The status string tells the classifications apart. */
  lemma StatusTellsSeverity(a: Severity, b: Severity)
    requires StatusOf(a) == StatusOf(b)
    ensures a == b
  {
    hide StatusOf;
    StatusLength(a);
    StatusLength(b);
  }

  /** The wording of each status. */
  lemma StatusTexts()
    ensures StatusOf(Unclassified) == "DOWN (unreachable)"
    ensures StatusOf(HostDown) == "DOWN (host unreachable)"
    ensures StatusOf(AgentOnly) == "DEGRADED (agent down, DNS serving)"
    ensures StatusOf(Critical) == "CRITICAL (host up, DNS not serving)"
    ensures UP_STATUS == "UP (recovered)"
  {
  }

  /** What the tracker remembers of one peer; "" stands for no status. */
  datatype Rec = Rec(lastOK: Option<bool>, downCount: int, status: string)

  const UNSEEN := Rec(None, 0, "")

  datatype Change = Quiet | WentDown | CameUp

  datatype Observed = Observed(rec: Rec, change: Change)

  /** The effect of one poll on a record. */
  function Observe(threshold: int, rec: Rec, ok: bool): Observed {
    if ok then
      Observed(Rec(Some(true), 0, ""), if rec.lastOK == Some(false) then CameUp else Quiet)
    else if rec.lastOK.None? then
      Observed(rec.(lastOK := Some(false), downCount := rec.downCount + 1), Quiet)
    else if rec.lastOK.value && rec.downCount + 1 >= threshold then
      Observed(rec.(lastOK := Some(false), downCount := 0), WentDown)
    else
      Observed(rec.(downCount := rec.downCount + 1), Quiet)
  }

  /** A record after a poll, and the status dispatched for it, if any. */
  datatype Handled = Handled(rec: Rec, alert: Option<string>)

  function Handle(threshold: int, rec: Rec, p: PeerHealth): Handled {
    var u := Observe(threshold, rec, p.ok);
    var status := StatusOf(p.severity);
    match u.change
    case WentDown => Handled(u.rec.(status := status), Some(status))
    case CameUp => Handled(u.rec.(status := ""), Some(UP_STATUS))
    case Quiet =>
      if !p.ok && u.rec.status != "" && status != u.rec.status then Handled(u.rec.(status := status), Some(status))
      else if !p.ok && p.severity.Critical? then Handled(u.rec, Some(status))
      else Handled(u.rec, None)
  }

  // ----- over the full history of one peer -----

  /** The polls of one peer, oldest first. */
  type History = seq<PeerHealth>

  function RecAfter(threshold: int, h: History): Rec {
    if |h| == 0 then UNSEEN else Handle(threshold, RecAfter(threshold, h[..|h| - 1]), h[|h| - 1]).rec
  }

  function AlertAt(threshold: int, h: History, i: nat): Option<string>
    requires i < |h|
  {
    Handle(threshold, RecAfter(threshold, h[..i]), h[i]).alert
  }

  function ChangeAt(threshold: int, h: History, i: nat): Change
    requires i < |h|
  {
    Observe(threshold, RecAfter(threshold, h[..i]), h[i].ok).change
  }

  function TrailingFailures(h: History): (n: nat)
    ensures n <= |h|
    ensures forall m | |h| - n <= m < |h| :: !h[m].ok
    ensures n < |h| ==> h[|h| - n - 1].ok
  {
    if |h| == 0 || h[|h| - 1].ok then 0 else TrailingFailures(h[..|h| - 1]) + 1
  }

  predicate EverUp(h: History) {
    TrailingFailures(h) < |h|
  }

  /** At least `threshold` failures in a row since the peer last answered. */
  predicate DeclaredDown(threshold: int, h: History) {
    EverUp(h) && TrailingFailures(h) >= threshold
  }

  /** The record a history calls for: reachable until declared down, carrying
      the latest classification exactly while declared down. */
  ghost predicate Reflects(threshold: int, h: History, rec: Rec) {
    && rec.lastOK == (if |h| == 0 then None else Some(EverUp(h) && TrailingFailures(h) < threshold))
    && rec.downCount == (if DeclaredDown(threshold, h) then TrailingFailures(h) - threshold else TrailingFailures(h))
    && rec.status == (if DeclaredDown(threshold, h) then StatusOf(h[|h| - 1].severity) else "")
  }

  lemma ReflectsNext(threshold: int, h: History, rec: Rec, p: PeerHealth)
    requires threshold >= 1 && Reflects(threshold, h, rec)
    ensures Reflects(threshold, h + [p], Handle(threshold, rec, p).rec)
  {
    hide StatusOf;
    var all := h + [p];
    assert all[..|all| - 1] == h;
    assert TrailingFailures(all) == if p.ok then 0 else TrailingFailures(h) + 1;
    StatusLength(p.severity);
    if |h| > 0 {
      StatusLength(h[|h| - 1].severity);
    }
  }

  /** The tracker's record is a function of the full history of polls. */
  lemma {:induction false} RecordIsHistory(threshold: int, h: History)
    requires threshold >= 1
    ensures Reflects(threshold, h, RecAfter(threshold, h))
  {
    hide Handle, Reflects;
    if |h| == 0 {
      EmptyReflects(threshold);
    } else {
      RecordIsHistory(threshold, h[..|h| - 1]);
      ReflectsNext(threshold, h[..|h| - 1], RecAfter(threshold, h[..|h| - 1]), h[|h| - 1]);
      assert h[..|h| - 1] + [h[|h| - 1]] == h;
    }
  }

  lemma EmptyReflects(threshold: int)
    requires threshold >= 1
    ensures Reflects(threshold, [], UNSEEN)
  {
  }

  /** The `n` polls before poll `i` all failed. */
  predicate FailedBefore(h: History, n: nat, i: nat) {
    n <= i <= |h| && forall m | i - n <= m < i :: !h[m].ok
  }

  /** Poll `i` is exactly the `threshold`-th failure in a row after a success. */
  predicate GoesDown(threshold: int, h: History, i: nat) {
    && 0 <= threshold <= i < |h|
    && h[i - threshold].ok
    && FailedBefore(h, threshold, i + 1)
  }

  /** Poll `i` is a success that ends a stretch of failures long enough to be an
      outage, or reaching back to the first poll. */
  ghost predicate Recovers(threshold: int, h: History, i: nat) {
    && i < |h| && h[i].ok
    && exists n: nat :: 1 <= n && FailedBefore(h, n, i) && (n >= threshold || n == i)
  }

  /** DOWN fires at a poll exactly when it is the `threshold`-th failure in a row
      after a success. */
  lemma DownFiresExactlyWhen(threshold: int, h: History, i: nat)
    requires threshold >= 1 && i < |h|
    ensures ChangeAt(threshold, h, i) == WentDown <==> GoesDown(threshold, h, i)
  {
    hide StatusOf, RecAfter, TrailingFailures;
    RecordIsHistory(threshold, h[..i]);
    var n := TrailingFailures(h[..i]);
    assert forall m | i - n <= m < i :: !h[m].ok;
    assert n < i ==> h[i - n - 1].ok;
  }

  /** UP fires exactly when a success ends a stretch of failures that is long
      enough for DOWN or reaches back to the first poll. */
  lemma UpFiresExactlyWhen(threshold: int, h: History, i: nat)
    requires threshold >= 1 && i < |h|
    ensures ChangeAt(threshold, h, i) == CameUp <==> Recovers(threshold, h, i)
  {
    hide StatusOf, RecAfter, TrailingFailures;
    RecordIsHistory(threshold, h[..i]);
    var run := TrailingFailures(h[..i]);
    assert FailedBefore(h, run, i);
    assert run < i ==> h[i - run - 1].ok;
    assert forall n: nat | FailedBefore(h, n, i) :: n <= run;
  }

  /** Which alert, if any, every single poll dispatches, from the polls alone: a
      recovery, the failure that completes an outage, a new classification of a
      peer declared down, or a critical failure — the last even on a first,
      unconfirmed failure. */
  lemma AlertsExactlyWhen(threshold: int, h: History, i: nat)
    requires threshold >= 1 && i < |h|
    ensures var status := StatusOf(h[i].severity);
      && (h[i].ok ==> AlertAt(threshold, h, i) == if Recovers(threshold, h, i) then Some(UP_STATUS) else None)
      && (!h[i].ok ==>
          && (AlertAt(threshold, h, i).Some? ==> AlertAt(threshold, h, i).value == status)
          && (AlertAt(threshold, h, i).Some? <==>
              || GoesDown(threshold, h, i)
              || (DeclaredDown(threshold, h[..i]) && h[i - 1].severity != h[i].severity)
              || h[i].severity.Critical?))
  {
    DownFiresExactlyWhen(threshold, h, i);
    UpFiresExactlyWhen(threshold, h, i);
    hide StatusOf, RecAfter, TrailingFailures, GoesDown, Recovers;
    RecordIsHistory(threshold, h[..i]);
    if i > 0 {
      StatusLength(h[i - 1].severity);
      StatusLength(h[i].severity);
    }
  }

  /** A failure status other than CRITICAL only ever goes out for a peer that is
      declared down by then. */
  lemma OnlyCriticalJumpsTheThreshold(threshold: int, h: History, i: nat)
    requires threshold >= 1 && i < |h|
    requires AlertAt(threshold, h, i).Some? && !h[i].ok && !h[i].severity.Critical?
    ensures DeclaredDown(threshold, h[..i + 1])
  {
    hide StatusOf, RecAfter;
    AlertsExactlyWhen(threshold, h, i);
    assert h[..i + 1][..i] == h[..i];
  }

  /** The reachability changes of the first `i` polls. */
  function Changes(threshold: int, h: History, i: nat): seq<Change>
    requires i <= |h|
  {
    if i == 0 then []
    else
      var c := ChangeAt(threshold, h, i - 1);
      Changes(threshold, h, i - 1) + if c.Quiet? then [] else [c]
  }

  lemma ChangeMovesRecord(threshold: int, h: History, i: nat)
    requires i < |h|
    ensures var before, after := RecAfter(threshold, h[..i]).lastOK, RecAfter(threshold, h[..i + 1]).lastOK;
      match ChangeAt(threshold, h, i)
      case Quiet => after == before || (before.None? && after.Some?)
      case WentDown => before == Some(true) && after == Some(false)
      case CameUp => before == Some(false) && after == Some(true)
  {
    hide StatusOf;
    assert h[..i + 1][..i] == h[..i];
  }

  /** DOWN and UP strictly alternate. */
  lemma {:induction false} ChangesAlternate(threshold: int, h: History, i: nat)
    requires i <= |h|
    ensures var cs := Changes(threshold, h, i);
      && (RecAfter(threshold, h[..i]).lastOK.None? ==> cs == [])
      && (forall n | 0 <= n < |cs| :: !cs[n].Quiet?)
      && (forall n | 0 < n < |cs| :: cs[n] != cs[n - 1])
      && (|cs| > 0 ==> (cs[|cs| - 1] == WentDown <==> RecAfter(threshold, h[..i]).lastOK == Some(false)))
  {
    hide RecAfter, ChangeAt;
    if i > 0 {
      ChangesAlternate(threshold, h, i - 1);
      ChangeMovesRecord(threshold, h, i - 1);
    }
  }

  /** KnownDown is documented as "the failure streak has crossed the threshold".
      It means that except for a peer that never answered: such a peer counts as
      known down from its first failed poll. */
  lemma KnownDownMeans(threshold: int, h: History)
    requires threshold >= 1
    ensures var known := RecAfter(threshold, h).lastOK == Some(false);
      && (known <==> |h| > 0 && (DeclaredDown(threshold, h) || !EverUp(h)))
      && ((known <==> TrailingFailures(h) >= threshold) <==>
          !(|h| > 0 && !EverUp(h) && TrailingFailures(h) < threshold))
  {
    hide StatusOf, RecAfter;
    RecordIsHistory(threshold, h);
  }

  /** That case arises on the first poll of any peer that does not answer, for
      every threshold above 1. */
  lemma KnownDownTooEarly(threshold: int, p: PeerHealth)
    requires threshold >= 2 && !p.ok
    ensures RecAfter(threshold, [p]).lastOK == Some(false)
    ensures TrailingFailures([p]) < threshold && !DeclaredDown(threshold, [p])
  {
    hide StatusOf;
    assert [p][..0] == [];
    assert RecAfter(threshold, []) == UNSEEN;
  }

  // ----- many peers -----

  /** The polls of `ip` among the polls of everyone. */
  function HistoryOf(polls: seq<PeerHealth>, ip: string): History {
    if |polls| == 0 then []
    else
      var last := polls[|polls| - 1];
      HistoryOf(polls[..|polls| - 1], ip) + if last.ip == ip then [last] else []
  }

  /** The alert a further poll gives rise to. */
  function NextAlert(threshold: int, polls: seq<PeerHealth>, p: PeerHealth): Option<string> {
    Handle(threshold, RecAfter(threshold, HistoryOf(polls, p.ip)), p).alert
  }

  lemma NextRecord(threshold: int, polls: seq<PeerHealth>, p: PeerHealth, ip: string)
    ensures RecAfter(threshold, HistoryOf(polls + [p], ip)) ==
      if ip == p.ip then Handle(threshold, RecAfter(threshold, HistoryOf(polls, ip)), p).rec
      else RecAfter(threshold, HistoryOf(polls, ip))
  {
    var all := polls + [p];
    assert all[..|all| - 1] == polls;
    var h := HistoryOf(polls, ip);
    if ip == p.ip {
      assert (h + [p])[..|h|] == h;
    } else {
      assert h + [] == h;
    }
  }

  class PeerTracker {
    const threshold: int
    var lastOK: map<string, bool>
    var downCount: map<string, int>
    var lastStatus: map<string, string>

    function RecOf(ip: string): Rec
      reads this
    {
      Rec(if ip in lastOK then Some(lastOK[ip]) else None,
          if ip in downCount then downCount[ip] else 0,
          if ip in lastStatus then lastStatus[ip] else "")
    }

    constructor (threshold: int)
      ensures this.threshold == if threshold < 1 then 1 else threshold
      ensures forall ip :: RecOf(ip) == UNSEEN
    {
      this.threshold := if threshold < 1 then 1 else threshold;
      lastOK, downCount, lastStatus := map[], map[], map[];
    }

    method KnownDown(ip: string) returns (known: bool)
      ensures known == (RecOf(ip).lastOK == Some(false))
    {
      known := ip in lastOK && !lastOK[ip];
    }

    method Status(ip: string) returns (status: string)
      ensures status == RecOf(ip).status
    {
      status := if ip in lastStatus then lastStatus[ip] else "";
    }

    method SetStatus(ip: string, status: string)
      modifies this
      ensures RecOf(ip) == old(RecOf(ip)).(status := status)
      ensures forall other | other != ip :: RecOf(other) == old(RecOf(other))
    {
      if status == "" {
        lastStatus := lastStatus - {ip};
        return;
      }
      lastStatus := lastStatus[ip := status];
    }

    method Update(ip: string, ok: bool) returns (down: bool, up: bool)
      modifies this
      ensures var u := Observe(threshold, old(RecOf(ip)), ok);
        RecOf(ip) == u.rec && down == u.change.WentDown? && up == u.change.CameUp?
      ensures forall other | other != ip :: RecOf(other) == old(RecOf(other))
    {
      var seen := ip in lastOK;
      var wasOK := seen && lastOK[ip];
      if ok {
        downCount := downCount[ip := 0];
        lastOK := lastOK[ip := true];
        lastStatus := lastStatus - {ip};
        return false, seen && !wasOK;
      }
      downCount := downCount[ip := (if ip in downCount then downCount[ip] else 0) + 1];
      if !seen {
        lastOK := lastOK[ip := false];
        return false, false;
      }
      if wasOK && downCount[ip] >= threshold {
        downCount := downCount[ip := 0];
        lastOK := lastOK[ip := false];
        return true, false;
      }
      return false, false;
    }
  }
}
