/** Notifications and their per-key cooldown (internal/notify/cooldown.go,
    event.go). */
module Notify {
  import opened Basics
  import StateFile
  import Tracker

  datatype Call<K> = Call(key: K, now: int)

  /** A key may be sent when it never was, or long enough ago. */
  predicate Ready(last: Option<int>, duration: int, now: int) {
    last.None? || now - last.value >= duration
  }

  /** When the calls so far last let `key` through. */
  function LastAllowed<K(==)>(duration: int, calls: seq<Call<K>>, key: K): Option<int> {
    if |calls| == 0 then None
    else
      var c := calls[|calls| - 1];
      var before := LastAllowed(duration, calls[..|calls| - 1], key);
      if c.key == key && Ready(before, duration, c.now) then Some(c.now) else before
  }

  predicate Allowed<K(==)>(duration: int, calls: seq<Call<K>>, i: nat)
    requires i < |calls|
  {
    Ready(LastAllowed(duration, calls[..i], calls[i].key), duration, calls[i].now)
  }

  /** The instants at which `key` was let through. */
  function Sends<K(==)>(duration: int, calls: seq<Call<K>>, key: K): seq<int> {
    if |calls| == 0 then []
    else
      var n := |calls| - 1;
      Sends(duration, calls[..n], key)
      + if calls[n].key == key && Allowed(duration, calls, n) then [calls[n].now] else []
  }

  lemma {:induction false} LastSend<K>(duration: int, calls: seq<Call<K>>, key: K)
    ensures var sends := Sends(duration, calls, key);
      LastAllowed(duration, calls, key) == if |sends| == 0 then None else Some(sends[|sends| - 1])
  {
    if |calls| > 0 {
      LastSend(duration, calls[..|calls| - 1], key);
    }
  }

  lemma {:induction false} SendsAreSpaced<K>(duration: int, calls: seq<Call<K>>, key: K)
    ensures var sends := Sends(duration, calls, key);
      forall n | 0 < n < |sends| :: sends[n] - sends[n - 1] >= duration
  {
    if |calls| > 0 {
      SendsAreSpaced(duration, calls[..|calls| - 1], key);
      LastSend(duration, calls[..|calls| - 1], key);
    }
  }

  lemma {:induction false} SpacedBetween(sends: seq<int>, duration: int, p: nat, q: nat)
    requires p <= q < |sends|
    requires forall n | 0 < n < |sends| :: sends[n] - sends[n - 1] >= duration
    ensures (q - p) * duration <= sends[q] - sends[p]
  {
    if p < q {
      SpacedBetween(sends, duration, p, q - 1);
      assert (q - p) * duration == (q - 1 - p) * duration + duration;
    }
  }

  /** Rate bound, whatever the clock does: if the sends p..q of a key all fall
      between `a` and `b`, their number less one, times the cooldown, fits in
      between. */
  lemma RateBound<K>(duration: int, calls: seq<Call<K>>, key: K, p: nat, q: nat, a: int, b: int)
    requires p <= q < |Sends(duration, calls, key)|
    requires a <= Sends(duration, calls, key)[p] && Sends(duration, calls, key)[q] <= b
    ensures (q - p) * duration <= b - a
  {
    SendsAreSpaced(duration, calls, key);
    SpacedBetween(Sends(duration, calls, key), duration, p, q);
  }

  /** A call is let through exactly when no earlier send of its key is closer
      than the cooldown. */
  lemma AllowedExactlyWhen<K>(duration: int, calls: seq<Call<K>>, i: nat)
    requires duration >= 0 && i < |calls|
    ensures Allowed(duration, calls, i) <==>
      forall s | s in Sends(duration, calls[..i], calls[i].key) :: calls[i].now - s >= duration
  {
    hide Sends, LastAllowed;
    var sends := Sends(duration, calls[..i], calls[i].key);
    LastSend(duration, calls[..i], calls[i].key);
    SendsAreSpaced(duration, calls[..i], calls[i].key);
    LastIsLatest(sends, duration);
    assert |sends| > 0 ==> sends[|sends| - 1] in sends;
  }

  lemma {:induction false} LastIsLatest(sends: seq<int>, duration: int)
    requires duration >= 0
    requires forall n | 0 < n < |sends| :: sends[n] - sends[n - 1] >= duration
    ensures forall s | s in sends :: s <= sends[|sends| - 1]
  {
    if |sends| > 1 {
      LastIsLatest(sends[..|sends| - 1], duration);
      assert sends == sends[..|sends| - 1] + [sends[|sends| - 1]];
    }
  }

  // ----- keys -----

  datatype Notice =
    | StateChange(from: State, to: State)
    | PeerAlert(ip: string, status: string)
    | VipLoss
  {
    /** Every status the agent dispatches is free of colons. */
    predicate Clean() {
      PeerAlert? ==> ':' !in status
    }
  }

  function Key(n: Notice): string {
    match n
    case StateChange(from, to) => StateFile.Name(from) + "->" + StateFile.Name(to)
    case PeerAlert(ip, status) => "peer:" + ip + ":" + status
    case VipLoss => "vip-loss"
  }

  /** The keys, to the letter. */
  lemma KeyTexts(ip: string, status: string)
    ensures Key(PeerAlert(ip, status)) == "peer:" + ip + ":" + status
    ensures Key(StateChange(Healthy, Degraded)) == "HEALTHY" + "->" + "DEGRADED"
    ensures Key(VipLoss) == "vip-loss"
  {
  }

  lemma LastColonSplits(ip: string, status: string, ip': string, status': string)
    requires ':' !in status && ':' !in status'
    requires ip + ":" + status == ip' + ":" + status'
    ensures ip == ip' && status == status'
  {
    var s := ip + ":" + status;
    assert s[|ip|] == ':' && s[|ip'|] == ':';
    assert forall k | |ip| < k < |s| :: s[k] == status[k - |ip| - 1];
    assert forall k | |ip'| < k < |s| :: s[k] == status'[k - |ip'| - 1];
    assert ip == s[..|ip|] && ip' == s[..|ip'|];
    assert status == s[|ip| + 1..] && status' == s[|ip'| + 1..];
  }

  lemma PeerKeys(ip: string, status: string, ip': string, status': string)
    requires ':' !in status && ':' !in status'
    requires Key(PeerAlert(ip, status)) == Key(PeerAlert(ip', status'))
    ensures ip == ip' && status == status'
  {
    assert "peer:" + ip + ":" + status == "peer:" + (ip + ":" + status);
    assert "peer:" + ip' + ":" + status' == "peer:" + (ip' + ":" + status');
    assert Key(PeerAlert(ip, status))[5..] == ip + ":" + status;
    assert Key(PeerAlert(ip', status'))[5..] == ip' + ":" + status';
    LastColonSplits(ip, status, ip', status');
  }

  lemma FirstLetter(n: Notice)
    ensures |Key(n)| > 0
    ensures Key(n)[0] == match n
      case StateChange(Healthy, _) => 'H'
      case StateChange(Degraded, _) => 'D'
      case StateChange(Unhealthy, _) => 'U'
      case PeerAlert(_, _) => 'p'
      case VipLoss => 'v'
  {
  }

  lemma ChangeKeys(from: State, to: State, to': State)
    requires Key(StateChange(from, to)) == Key(StateChange(from, to'))
    ensures to == to'
  {
    var front := StateFile.Name(from) + "->";
    assert Key(StateChange(from, to))[|front|..] == StateFile.Name(to);
    assert Key(StateChange(from, to'))[|front|..] == StateFile.Name(to');
    assert StateFile.Name(to)[0] == StateFile.Name(to')[0];
  }

  /** Different notices have different keys: no kind of alert, peer or status
      shares a cooldown with another — IPv6 addresses included. */
  lemma KeysAreInjective(a: Notice, b: Notice)
    requires a.Clean() && b.Clean() && Key(a) == Key(b)
    ensures a == b
  {
    FirstLetter(a);
    FirstLetter(b);
    match a {
      case PeerAlert(ip, status) => PeerKeys(ip, status, b.ip, b.status);
      case StateChange(from, to) => ChangeKeys(from, to, b.to);
      case VipLoss =>
    }
  }

  /** Every status a cycle can dispatch is clean. */
  lemma StatusesAreClean(threshold: int, rec: Tracker.Rec, p: PeerHealth)
    ensures var alert := Tracker.Handle(threshold, rec, p).alert;
      alert.Some? ==> PeerAlert(p.ip, alert.value).Clean()
  {
    hide Tracker.StatusOf;
    Tracker.StatusIsClean(p.severity);
  }

  function Keyed(calls: seq<Call<Notice>>): (keyed: seq<Call<string>>)
    ensures |keyed| == |calls|
  {
    if |calls| == 0 then []
    else
      var c := calls[|calls| - 1];
      Keyed(calls[..|calls| - 1]) + [Call(Key(c.key), c.now)]
  }

  /** Isolation: the cooldown on keys treats every notice exactly as if it had a
      cooldown of its own. */
  lemma {:induction false} NoCrossSuppression(duration: int, calls: seq<Call<Notice>>, n: Notice)
    requires n.Clean() && forall c | c in calls :: c.key.Clean()
    ensures LastAllowed(duration, Keyed(calls), Key(n)) == LastAllowed(duration, calls, n)
  {
    if |calls| > 0 {
      var front, c := calls[..|calls| - 1], calls[|calls| - 1];
      NoCrossSuppression(duration, front, n);
      assert Keyed(calls)[..|calls| - 1] == Keyed(front);
      if Key(c.key) == Key(n) {
        KeysAreInjective(c.key, n);
      }
    }
  }

  // ----- the cooldown and the dispatcher -----

  class Cooldown {
    const duration: int
    var lastSent: map<string, int>
    ghost var calls: seq<Call<string>>

    ghost predicate Valid()
      reads this
    {
      forall key :: (if key in lastSent then Some(lastSent[key]) else None) == LastAllowed(duration, calls, key)
    }

    constructor (duration: int)
      ensures Valid() && this.duration == duration && calls == []
    {
      this.duration := duration;
      lastSent := map[];
      calls := [];
    }

    method Allow(key: string, now: int) returns (allowed: bool)
      requires Valid()
      modifies this
      ensures Valid() && calls == old(calls) + [Call(key, now)]
      ensures allowed == Ready(LastAllowed(duration, old(calls), key), duration, now)
    {
      ghost var before := calls;
      calls := calls + [Call(key, now)];
      assert calls[..|calls| - 1] == before;
      forall k
        ensures LastAllowed(duration, calls, k) == LastAllowed(duration, before, k)
          || (k == key && LastAllowed(duration, calls, k) == Some(now))
      {
      }
      if key !in lastSent {
        lastSent := lastSent[key := now];
        return true;
      }
      if now - lastSent[key] >= duration {
        lastSent := lastSent[key := now];
        return true;
      }
      return false;
    }
  }

  /** The notices of `calls` that get past their own cooldown, in order. */
  function Delivered(duration: int, calls: seq<Call<Notice>>): seq<Notice> {
    if |calls| == 0 then []
    else
      var n := |calls| - 1;
      Delivered(duration, calls[..n]) + if Allowed(duration, calls, n) then [calls[n].key] else []
  }

  /** Of every notice, as many copies are delivered as there are sends of it. */
  lemma {:induction false} DeliveredCounts(duration: int, calls: seq<Call<Notice>>, n: Notice)
    ensures multiset(Delivered(duration, calls))[n] == |Sends(duration, calls, n)|
  {
    if |calls| > 0 {
      DeliveredCounts(duration, calls[..|calls| - 1], n);
    }
  }

  /** Call `i` is the first of its notice within the cooldown. */
  ghost predicate Due(duration: int, calls: seq<Call<Notice>>, i: nat)
    requires i < |calls|
  {
    forall s | s in Sends(duration, calls[..i], calls[i].key) :: calls[i].now - s >= duration
  }

  lemma DueInFront(duration: int, calls: seq<Call<Notice>>, n: nat, i: nat)
    requires i < n <= |calls|
    ensures Due(duration, calls[..n], i) <==> Due(duration, calls, i)
  {
    assert calls[..n][..i] == calls[..i];
  }

  lemma AllowedWhenDue(duration: int, calls: seq<Call<Notice>>, i: nat)
    requires duration >= 0 && i < |calls|
    ensures Allowed(duration, calls, i) <==> Due(duration, calls, i)
  {
    hide Allowed, Sends;
    AllowedExactlyWhen(duration, calls, i);
    if Allowed(duration, calls, i) {
      assert forall s | s in Sends(duration, calls[..i], calls[i].key) :: calls[i].now - s >= duration;
    } else {
      assert exists s | s in Sends(duration, calls[..i], calls[i].key) :: calls[i].now - s < duration;
    }
  }

  /** What is delivered are the calls that are due, in the order they were made. */
  lemma {:induction false} DeliveredInOrder(duration: int, calls: seq<Call<Notice>>) returns (due: seq<nat>)
    requires duration >= 0
    ensures forall k | 0 <= k < |due| :: due[k] < |calls|
    ensures forall k | 0 < k < |due| :: due[k - 1] < due[k]
    ensures forall i: nat | i < |calls| :: i in due <==> Due(duration, calls, i)
    ensures |due| == |Delivered(duration, calls)|
    ensures forall k | 0 <= k < |due| :: Delivered(duration, calls)[k] == calls[due[k]].key
  {
    hide Allowed, Due;
    if |calls| == 0 {
      due := [];
    } else {
      var n := |calls| - 1;
      var front := DeliveredInOrder(duration, calls[..n]);
      AllowedWhenDue(duration, calls, n);
      due := front + if Allowed(duration, calls, n) then [n] else [];
      forall i: nat | i < n
        ensures i in due <==> Due(duration, calls, i)
      {
        DueInFront(duration, calls, n, i);
      }
      assert n !in front;
    }
  }

  lemma {:induction false} SendsGrow(duration: int, calls: seq<Call<Notice>>, n: Notice, u: nat, v: nat)
    requires u <= v <= |calls|
    ensures var before, after := Sends(duration, calls[..u], n), Sends(duration, calls[..v], n);
      && before <= after
      && forall k | |before| <= k < |after| ::
          exists m | u <= m < v :: calls[m].key == n && after[k] == calls[m].now
  {
    if u < v {
      SendsGrow(duration, calls, n, u, v - 1);
      assert calls[..v][..v - 1] == calls[..v - 1];
      var before, mid := Sends(duration, calls[..u], n), Sends(duration, calls[..v - 1], n);
      var after := Sends(duration, calls[..v], n);
      forall k | |before| <= k < |after|
        ensures exists m | u <= m < v :: calls[m].key == n && after[k] == calls[m].now
      {
        if k < |mid| {
          var m :| u <= m < v - 1 && calls[m].key == n && mid[k] == calls[m].now;
        } else {
          assert calls[v - 1].key == n && after[k] == calls[v - 1].now;
        }
      }
    }
  }

  /** The rate bound on what the notifiers are handed: of the calls from `u` up to
      `v`, if those about a notice all fall between `a` and `b`, the number of its
      copies delivered, less one, times the cooldown, fits in between. */
  lemma DeliveryRate(duration: int, calls: seq<Call<Notice>>, n: Notice, u: nat, v: nat, a: int, b: int)
    requires u <= v <= |calls|
    requires forall m | u <= m < v && calls[m].key == n :: a <= calls[m].now <= b
    ensures var copies: int :=
        multiset(Delivered(duration, calls[..v]))[n] as int - multiset(Delivered(duration, calls[..u]))[n];
      copies > 0 ==> (copies - 1) * duration <= b - a
  {
    hide Sends, Delivered;
    DeliveredCounts(duration, calls[..u], n);
    DeliveredCounts(duration, calls[..v], n);
    SendsGrow(duration, calls, n, u, v);
    var p, q := |Sends(duration, calls[..u], n)|, |Sends(duration, calls[..v], n)| - 1;
    if p <= q {
      RateBound(duration, calls[..v], n, p, q, a, b);
    }
  }

  class EventDispatcher {
    const cooldown: Cooldown
    /** What the notifiers were handed. */
    var outbox: seq<Notice>
    ghost var calls: seq<Call<Notice>>

    ghost predicate Valid()
      reads this, cooldown
    {
      && cooldown.Valid()
      && cooldown.calls == Keyed(calls)
      && (forall c | c in calls :: c.key.Clean())
      && outbox == Delivered(cooldown.duration, calls)
    }

    constructor (duration: int)
      ensures Valid() && fresh(cooldown) && cooldown.duration == duration && calls == [] && outbox == []
    {
      cooldown := new Cooldown(duration);
      outbox, calls := [], [];
    }

    /** A call reaches the notifiers exactly when that same notice has not gone
        out within the cooldown. */
    method Dispatch(n: Notice, now: int)
      requires Valid() && n.Clean()
      modifies this, cooldown
      ensures Valid() && calls == old(calls) + [Call(n, now)]
      ensures cooldown.duration >= 0 ==>
        outbox == old(outbox)
          + if forall s | s in Sends(cooldown.duration, old(calls), n) :: now - s >= cooldown.duration then [n] else []
    {
      NoCrossSuppression(cooldown.duration, calls, n);
      var allowed := cooldown.Allow(Key(n), now);
      ghost var before := calls;
      calls := calls + [Call(n, now)];
      assert calls[..|calls| - 1] == before;
      assert forall c :: c in calls <==> c in before || c == Call(n, now);
      if cooldown.duration >= 0 {
        AllowedExactlyWhen(cooldown.duration, calls, |before|);
      }
      if !allowed {
        return;
      }
      outbox := outbox + [n];
    }
  }
}
