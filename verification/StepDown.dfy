/** The preempt step-down decision and its grace timer
    (internal/agent/runner.go, step 2 of a cycle). */
module StepDown {
  import opened Basics

  const PREEMPT_COOLDOWN := 60 * SECOND
  const KERNEL_GRACE := 15 * SECOND

  /** Whether to step down, and the grace timer afterwards. */
  datatype Verdict = Verdict(stepDown: bool, since: Option<int>)

  /** A healthy peer with strictly lower effective advskew. */
  predicate Outranks(p: PeerHealth, mine: int) {
    p.Fit() && p.Effective() < mine
  }

  predicate PastCooldown(last: Option<int>, now: int) {
    last.None? || now - last.value > PREEMPT_COOLDOWN
  }

  predicate GraceOver(since: Option<int>, now: int) {
    since.Some? && now - since.value >= KERNEL_GRACE
  }

  /** Some peer outranks us and only we can make room for it. */
  predicate ActNow(peers: seq<PeerHealth>, mine: int) {
    exists p | p in peers :: Outranks(p, mine) && p.preempt != 1
  }

  /** Some peer outranks us and its own kernel should reclaim the VIP. */
  predicate KernelShouldAct(peers: seq<PeerHealth>, mine: int) {
    exists p | p in peers :: Outranks(p, mine) && p.preempt == 1
  }

  /** The decision, free of any order on the peers. */
  function Judge(peers: seq<PeerHealth>, mine: int, last: Option<int>, since: Option<int>, now: int): Verdict {
    if !PastCooldown(last, now) then Verdict(false, None)
    else if ActNow(peers, mine) || (KernelShouldAct(peers, mine) && GraceOver(since, now)) then Verdict(true, None)
    else if KernelShouldAct(peers, mine) then Verdict(false, Some(since.GetOr(now)))
    else Verdict(false, None)
  }

  /** The scan of the peer list: it skips, waits or stops at each entry while the
      grace timer may start under way. */
  method Scan(peers: seq<PeerHealth>, mine: int, last: Option<int>, since: Option<int>, now: int)
    returns (verdict: Verdict)
    ensures verdict == Judge(peers, mine, last, since, now)
  {
    var timer := since;
    var awaitingKernel, stepDown := false, false;
    for n := 0 to |peers|
      invariant !stepDown
      invariant !PastCooldown(last, now) ==> !awaitingKernel && timer == since
      invariant PastCooldown(last, now) ==>
          && awaitingKernel == KernelShouldAct(peers[..n], mine)
          && !ActNow(peers[..n], mine)
          && (awaitingKernel ==> !GraceOver(since, now))
          && timer == if awaitingKernel then Some(since.GetOr(now)) else since
    {
      var p := peers[n];
      assert forall q :: q in peers[..n + 1] <==> q in peers[..n] || q == p;
      if !p.ok || p.score < HEALTHY_SCORE {
        continue;
      }
      if p.Effective() >= mine {
        continue;
      }
      if last.Some? && now - last.value <= PREEMPT_COOLDOWN {
        continue;
      }
      if p.preempt == 1 {
        awaitingKernel := true;
        if timer.None? {
          timer := Some(now);
        }
        if now - timer.value < KERNEL_GRACE {
          continue;
        }
      }
      stepDown := true;
      awaitingKernel := false;
      assert p in peers && Outranks(p, mine);
      break;
    }
    if !stepDown {
      assert peers[..|peers|] == peers;
    }
    if !awaitingKernel {
      timer := None;
    }
    verdict := Verdict(stepDown, timer);
  }
}
