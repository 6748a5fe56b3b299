/** A cluster of agents of any size, looked at in one round in which every
    heartbeat tells what its sender uses for itself. */
module Cluster {
  import opened Basics
  import opened Config
  import opened Control
  import Cycle
  import GraceRuns
  import KernelRuns
  import StepDown

  datatype Member = Member(cfg: Config, node: Node, input: Input, advskew: int) {
    ghost function Outcome(): Outcome { Step(cfg, node, input) }

    /** The effective advskew the member compares with. */
    ghost function Own(): int { advskew + Outcome().moved.actualDemotion }

    predicate Fit() { input.health.score >= HEALTHY_SCORE }

    /** A healthy MASTER whose last step-down lies more than 60s back. */
    ghost predicate Leads() {
      var mark := node.runner.preemptCooldown;
      Cycle.HealthyMaster(cfg, node, input) && (mark.None? || input.now - mark.value > 60 * SECOND)
    }

    /** It reads its own configured advskew, or, when predicting, nothing. */
    predicate ReadsItself() {
      && input.skewAtStepDown == Some(advskew)
      && (input.skewAtPrediction.Some? ==> input.skewAtPrediction.value == advskew)
    }
  }

  type Round = seq<Member>

  /** Heartbeat `p` is the report of member `m`. */
  ghost predicate Reports(p: PeerHealth, m: Member) {
    && p.ok
    && p.score == m.input.health.score
    && p.advskew == m.advskew
    && p.demotion == m.Outcome().moved.actualDemotion
  }

  ghost predicate Heard(round: Round, k: nat, j: nat)
    requires k < |round| && j < |round|
  {
    exists p | p in round[k].Outcome().assessed.peers :: Reports(p, round[j])
  }

  /** Members read their own advskew and every answered heartbeat is the report
      of another member. */
  ghost predicate Truthful(round: Round) {
    && (forall m | m in round :: m.ReadsItself())
    && forall k: nat, p | k < |round| && p in round[k].Outcome().assessed.peers && p.ok ::
      exists j: nat | j < |round| :: j != k && Reports(p, round[j])
  }

  /** Everyone hears everyone else. */
  ghost predicate Connected(round: Round) {
    forall k: nat, j: nat | k < |round| && j < |round| && k != j :: Heard(round, k, j)
  }

  /** Member `j` is the kind of peer member `k` makes room for. */
  ghost predicate Justifies(round: Round, j: nat, k: nat)
    requires j < |round| && k < |round|
  {
    j != k && round[j].Fit() && round[j].Own() < round[k].Own()
  }

  lemma OutrankedBy(m: Member) returns (p: PeerHealth)
    requires m.ReadsItself() && m.Outcome().moved.stepDown
    ensures p in m.Outcome().assessed.peers && StepDown.Outranks(p, m.Own())
  {
    p :| p in m.Outcome().assessed.peers && StepDown.Outranks(p, m.Own());
  }

  /** A step-down always has a healthy member with strictly lower effective
      advskew behind it. */
  lemma StepDownIsJustified(round: Round, k: nat) returns (j: nat)
    requires Truthful(round) && k < |round| && round[k].Outcome().moved.stepDown
    ensures j < |round| && Justifies(round, j, k)
  {
    hide Step;
    var m := round[k];
    assert m in round && m.ReadsItself();
    var p := OutrankedBy(m);
    j :| j < |round| && j != k && Reports(p, round[j]);
  }

  /** The healthy member with the least effective advskew never steps down. */
  lemma LeastNeverStepsDown(round: Round, k: nat)
    requires Truthful(round) && k < |round|
    requires forall j: nat | j < |round| && round[j].Fit() :: round[k].Own() <= round[j].Own()
    ensures !round[k].Outcome().moved.stepDown
  {
    hide Step;
    if round[k].Outcome().moved.stepDown {
      var j := StepDownIsJustified(round, k);
      assert false;
    }
  }

  lemma {:induction false} LeastFit(round: Round, n: nat) returns (k: nat)
    requires n <= |round|
    requires exists j: nat | j < n :: round[j].Fit()
    ensures k < n && round[k].Fit()
    ensures forall j: nat | j < n && round[j].Fit() :: round[k].Own() <= round[j].Own()
  {
    hide Step;
    var last := n - 1;
    if exists j: nat | j < last :: round[j].Fit() {
      k := LeastFit(round, last);
      if round[last].Fit() && round[last].Own() < round[k].Own() {
        k := last;
      }
    } else {
      k := last;
    }
  }

  // ----- somebody keeps serving -----

  /** Healthy and, before any step-down, wanting its interface up. */
  ghost predicate Serving(m: Member) {
    m.Fit() && !m.Outcome().assessed.decision.down
  }

  /** Members with one set of levels, each in a state a run can reach, whose
      advskews lie within the distance between the unhealthy and the degraded
      level. */
  ghost predicate Balanced(round: Round, levels: Levels) {
    && (forall m | m in round ::
        && m.cfg.Valid() && m.cfg.Demotions() == levels && m.input.health.Sound()
        && KernelRuns.Kept(m.cfg, m.node) && KernelRuns.Distinguishable(m.cfg, m.input))
    && (forall m, h | m in round && h in round :: m.advskew - h.advskew <= levels.unhealthy - levels.degraded)
  }

  lemma ServingDemotion(m: Member)
    requires m.cfg.Valid() && m.input.health.Sound()
    requires KernelRuns.Kept(m.cfg, m.node) && KernelRuns.Distinguishable(m.cfg, m.input)
    ensures var o, levels := m.Outcome(), m.cfg.Demotions();
      && (Serving(m) ==> o.moved.actualDemotion <= levels.degraded)
      && (o.assessed.decision.down ==> o.moved.actualDemotion >= levels.unhealthy)
      && o.node.kernel.up == !o.node.runner.lastIfaceDown == !(o.assessed.decision.down || o.moved.stepDown)
  {
    KernelRuns.SettleKeepsSync(m.cfg, m.node, m.input);
    KernelRuns.StepKeepsSync(m.cfg, m.node, m.input);
    KernelRuns.DecisionLevels(m.cfg, m.node, m.input);
    ValidatedLevels(m.cfg);
  }

  /** Step-downs never empty a balanced cluster: if somebody is serving, somebody
      healthy still has its interface up after the round. */
  lemma SomeoneKeepsServing(round: Round, levels: Levels) returns (k: nat)
    requires Truthful(round) && Balanced(round, levels)
    requires exists j: nat | j < |round| :: Serving(round[j])
    ensures k < |round| && Serving(round[k]) && round[k].Outcome().node.kernel.up
  {
    hide Step, KernelRuns.Kept, KernelRuns.Distinguishable;
    var j: nat :| j < |round| && Serving(round[j]);
    k := LeastFit(round, |round|);
    assert round[j] in round && round[k] in round;
    ServingDemotion(round[j]);
    ServingDemotion(round[k]);
    if !Serving(round[k]) {
      k := j;
    }
    LeastNeverStepsDown(round, k);
  }

  lemma PeersHeard(m: Member)
    requires m.cfg.peerEnabled
    ensures m.Outcome().assessed.peers == m.input.peers
  {
  }

  lemma PredictsAboveNobody(m: Member, p: PeerHealth)
    requires m.ReadsItself() && m.Outcome().told.predicted
    requires p in m.Outcome().assessed.peers && p.Fit()
    ensures m.Fit() && m.Own() < p.Effective()
  {
  }

  /** At most one member predicts itself MASTER. */
  lemma OnePredictedMaster(round: Round, k: nat, j: nat)
    requires Truthful(round) && Connected(round) && k < |round| && j < |round|
    requires round[k].Outcome().told.predicted && round[j].Outcome().told.predicted
    ensures k == j
  {
    hide Step;
    if k != j {
      assert Heard(round, k, j) && Heard(round, j, k);
      var p :| p in round[k].Outcome().assessed.peers && Reports(p, round[j]);
      var q :| q in round[j].Outcome().assessed.peers && Reports(q, round[k]);
      assert round[k] in round && round[j] in round;
      FitWhenPredicted(round[k]);
      FitWhenPredicted(round[j]);
      PredictsAboveNobody(round[k], p);
      PredictsAboveNobody(round[j], q);
    }
  }

  lemma FitWhenPredicted(m: Member)
    requires m.Outcome().told.predicted
    ensures m.Fit()
  {
  }

  lemma LeaderMakesRoom(m: Member, p: PeerHealth)
    requires m.ReadsItself() && m.Leads()
    requires p in m.Outcome().assessed.peers && StepDown.Outranks(p, m.Own())
    ensures m.Outcome().moved.stepDown || m.Outcome().node.runner.kernelPreemptSince.Some?
  {
    assert p.preempt == 1 || p.preempt != 1;
  }

  /** A prediction is honoured: when one member predicts itself MASTER, any other
      that is a healthy MASTER past its cooldown steps down in the same round or
      has its grace timer running for a peer's kernel. */
  lemma PredictionIsHonoured(round: Round, k: nat, j: nat)
    requires Truthful(round) && Connected(round) && k < |round| && j < |round| && k != j
    requires round[k].Outcome().told.predicted
    requires round[j].Leads()
    ensures round[j].Outcome().moved.stepDown || round[j].Outcome().node.runner.kernelPreemptSince.Some?
  {
    hide Step;
    assert Heard(round, k, j) && Heard(round, j, k);
    var p :| p in round[k].Outcome().assessed.peers && Reports(p, round[j]);
    var q :| q in round[j].Outcome().assessed.peers && Reports(q, round[k]);
    assert round[k] in round && round[j] in round;
    LeaderIsFit(round[j]);
    PredictsAboveNobody(round[k], p);
    LeaderMakesRoom(round[j], q);
  }

  lemma LeaderIsFit(m: Member)
    requires m.Leads()
    ensures m.Fit()
  {
  }

  // ----- chains of step-downs -----

  /** Member `k` stepped down and heard, from member `j`, a report that passed its
      step-down test. */
  ghost predicate HandsTo(round: Round, k: nat, j: nat)
    requires k < |round| && j < |round|
  {
    var m, o := round[k], round[k].Outcome();
    && o.moved.stepDown
    && exists p | p in o.assessed.peers :: Reports(p, round[j]) && StepDown.Outranks(p, GraceRuns.Mine(m.input, o))
  }

  /** Members, each but the last stepping down for the next. */
  ghost predicate HandOver(round: Round, c: seq<nat>) {
    && (forall n | 0 <= n < |c| :: c[n] < |round|)
    && (forall n | 0 < n < |c| :: HandsTo(round, c[n - 1], c[n]))
  }

  /** Stepping down for a member means that it is healthy and strictly better. */
  lemma HandsToBetter(round: Round, k: nat, j: nat)
    requires Truthful(round) && k < |round| && j < |round| && HandsTo(round, k, j)
    ensures Justifies(round, j, k)
  {
    hide Step;
    assert round[k] in round && round[k].ReadsItself();
  }

  lemma SomeoneToHandTo(round: Round, k: nat) returns (j: nat)
    requires Truthful(round) && k < |round| && round[k].Outcome().moved.stepDown
    ensures j < |round| && HandsTo(round, k, j)
  {
    hide Step;
    var m := round[k];
    assert m in round && m.ReadsItself();
    var p := OutrankedBy(m);
    j :| j < |round| && j != k && Reports(p, round[j]);
  }

  lemma {:induction false} HandOverDescends(round: Round, c: seq<nat>, a: nat, b: nat)
    requires Truthful(round) && HandOver(round, c) && a < b < |c|
    ensures round[c[b]].Own() < round[c[a]].Own()
  {
    hide Step, Truthful;
    HandsToBetter(round, c[b - 1], c[b]);
    if a < b - 1 {
      HandOverDescends(round, c, a, b - 1);
    }
  }

  /** In a truthful round a chain of step-downs visits no member twice, so it is
      no longer than the cluster. */
  lemma HandOverVisitsOnce(round: Round, c: seq<nat>)
    requires Truthful(round) && HandOver(round, c)
    ensures forall a, b | 0 <= a < b < |c| :: c[a] != c[b]
    ensures |c| <= |round|
  {
    hide Step, Truthful;
    forall a, b | 0 <= a < b < |c|
      ensures c[a] != c[b]
    {
      HandOverDescends(round, c, a, b);
    }
    DistinctBelow(c, |round|);
  }

  lemma HandOverContinues(round: Round, prefix: seq<nat>) returns (c: seq<nat>)
    requires Truthful(round) && HandOver(round, prefix) && |prefix| > 0
    ensures prefix <= c && HandOver(round, c)
    ensures !round[c[|c| - 1]].Outcome().moved.stepDown
    decreases |round| - |prefix|
  {
    hide Step, Truthful;
    HandOverVisitsOnce(round, prefix);
    var last := prefix[|prefix| - 1];
    if round[last].Outcome().moved.stepDown {
      var j := SomeoneToHandTo(round, last);
      HandOverVisitsOnce(round, prefix + [j]);
      c := HandOverContinues(round, prefix + [j]);
    } else {
      c := prefix;
    }
  }

  /** Whoever steps down in a truthful round starts a chain of step-downs, each
      member making room for the next, that ends within the cluster at a healthy
      member which stays and is strictly better than all before it. */
  lemma HandOverEnds(round: Round, k: nat) returns (c: seq<nat>)
    requires Truthful(round) && k < |round| && round[k].Outcome().moved.stepDown
    ensures 1 < |c| <= |round| && c[0] == k && HandOver(round, c)
    ensures forall n | 0 <= n < |c| - 1 :: round[c[n]].Outcome().moved.stepDown
    ensures var last := round[c[|c| - 1]];
      && last.Fit() && !last.Outcome().moved.stepDown
      && forall n | 0 <= n < |c| - 1 :: last.Own() < round[c[n]].Own()
  {
    hide Step, Truthful;
    c := HandOverContinues(round, [k]);
    assert c[0] == k;
    HandOverVisitsOnce(round, c);
    forall n | 0 <= n < |c| - 1
      ensures round[c[n]].Outcome().moved.stepDown && round[c[|c| - 1]].Own() < round[c[n]].Own()
    {
      assert HandsTo(round, c[n + 1 - 1], c[n + 1]);
      HandOverDescends(round, c, n, |c| - 1);
    }
    HandsToBetter(round, c[|c| - 2], c[|c| - 1]);
  }

  lemma {:induction false} DistinctBelow(c: seq<nat>, n: nat)
    requires forall a, b | 0 <= a < b < |c| :: c[a] != c[b]
    requires forall a | 0 <= a < |c| :: c[a] < n
    ensures |c| <= n
    decreases n
  {
    if |c| > 0 {
      assert c[0] < n;
      if exists a | 0 <= a < |c| :: c[a] == n - 1 {
        var a :| 0 <= a < |c| && c[a] == n - 1;
        DistinctBelow(c[..a] + c[a + 1..], n - 1);
      } else {
        DistinctBelow(c, n - 1);
      }
    }
  }
}
