/** State-change alerts over whole runs: debounce, the chain of announcements,
    and restarts. */
module AlertRuns {
  import opened Basics
  import opened Config
  import opened Control
  import Kernel
  import StateFile

  /** Cycles a state must hold: as configured, and 3 for 0. */
  function Confirmations(cfg: Config): int {
    if cfg.notifyConfirm > 0 then cfg.notifyConfirm else 3
  }

  /** The state cycle `m` counts as; a held node counts as UNHEALTHY. */
  ghost function StateOf(r: Run, m: nat): State
    requires m < |r.ins|
  {
    r.Cycle(m).assessed.state
  }

  /** The `n` cycles up to and including cycle `m` were all in its state. */
  ghost predicate Confirmed(r: Run, n: int, m: nat)
    requires m < |r.ins|
  {
    m + 1 >= n && forall q: nat | m + 1 - n <= q <= m :: StateOf(r, q) == StateOf(r, m)
  }

  /** Cycle `m` is the last confirmed one before cycle `i`. */
  ghost predicate LastConfirmed(r: Run, m: nat, i: nat)
    requires i <= |r.ins|
  {
    && m < i
    && Confirmed(r, Confirmations(r.cfg), m)
    && forall q: nat | m < q < i :: !Confirmed(r, Confirmations(r.cfg), q)
  }

  ghost predicate NoneConfirmed(r: Run, i: nat)
    requires i <= |r.ins|
  {
    forall q: nat | q < i :: !Confirmed(r, Confirmations(r.cfg), q)
  }

  lemma ConfirmStep(cfg: Config, n: Node, i: Input)
    ensures cfg.Valid() ==> cfg.NotifyConfirm() == Confirmations(cfg)
    ensures var o := Step(cfg, n, i);
      var s, c := o.assessed.state, o.assessed.confirmCount;
      && c == (if s == n.runner.confirmState then n.runner.confirmCount + 1 else 1)
      && o.node.runner.confirmState == s && o.node.runner.confirmCount == c
      && o.told.change == (if s != n.runner.lastState && c >= cfg.NotifyConfirm()
                           then Some(Transition(n.runner.lastState, s)) else None)
      && o.node.runner.lastState == (if c >= cfg.NotifyConfirm() then s else n.runner.lastState)
  {
  }

  /** confirmCount is exactly the length of the stretch of equal states that
      ends a run. */
  lemma {:induction false} CountIsStretch(r: Run, i: nat)
    requires r.Started() && 0 < i <= |r.ins|
    ensures var c := r.At(i).runner.confirmCount;
      && 1 <= c <= i
      && r.At(i).runner.confirmState == StateOf(r, i - 1)
      && (forall q: nat | i - c <= q < i :: StateOf(r, q) == StateOf(r, i - 1))
      && (c < i ==> StateOf(r, i - c - 1) != StateOf(r, i - 1))
  {
    hide Step, Attainable;
    ConfirmStep(r.cfg, r.At(i - 1), r.ins[i - 1]);
    if i > 1 {
      CountIsStretch(r, i - 1);
    }
  }

  lemma CountReached(r: Run, i: nat)
    requires r.Started() && i < |r.ins|
    ensures r.Cycle(i).assessed.confirmCount >= Confirmations(r.cfg) <==> Confirmed(r, Confirmations(r.cfg), i)
  {
    hide Step, Attainable;
    CountIsStretch(r, i + 1);
    ConfirmStep(r.cfg, r.At(i), r.ins[i]);
    var n, c := Confirmations(r.cfg), r.At(i + 1).runner.confirmCount;
    assert c < i + 1 ==> StateOf(r, i - c) != StateOf(r, i);
  }

  /** Debounce refined: the announced state is the most recent one that held for
      `notify.confirm` cycles in a row, or the restored state if none did. */
  lemma {:induction false} AnnouncedIsLastConfirmed(r: Run, i: nat)
    requires r.Started() && i <= |r.ins|
    ensures forall m: nat | LastConfirmed(r, m, i) :: r.At(i).runner.lastState == StateOf(r, m)
    ensures NoneConfirmed(r, i) ==> r.At(i).runner.lastState == r.start.runner.lastState
    ensures NoneConfirmed(r, i) || exists m: nat :: LastConfirmed(r, m, i)
  {
    hide Step, Attainable;
    if i > 0 {
      AnnouncedIsLastConfirmed(r, i - 1);
      ConfirmStep(r.cfg, r.At(i - 1), r.ins[i - 1]);
      CountReached(r, i - 1);
      if Confirmed(r, Confirmations(r.cfg), i - 1) {
        assert LastConfirmed(r, i - 1, i);
      } else {
        assert forall m: nat :: LastConfirmed(r, m, i) <==> LastConfirmed(r, m, i - 1);
        if !NoneConfirmed(r, i - 1) {
          var m: nat :| LastConfirmed(r, m, i - 1);
          assert LastConfirmed(r, m, i);
        }
      }
    }
  }

  /** A cycle announces a change exactly when its state is confirmed and is not
      the one announced before. */
  lemma AnnouncesExactlyWhen(r: Run, i: nat)
    requires r.Started() && i < |r.ins|
    ensures r.Cycle(i).told.change.Some? <==>
      Confirmed(r, Confirmations(r.cfg), i) && StateOf(r, i) != r.At(i).runner.lastState
  {
    hide Step, Attainable;
    ConfirmStep(r.cfg, r.At(i), r.ins[i]);
    CountReached(r, i);
  }

  // ----- announcements, across restarts -----

  /** Transitions that lead from `from` to `to`, each taking up where the one
      before it ended and none from a state to itself. */
  ghost predicate Chain(from: State, ts: seq<Transition>, to: State) {
    && (forall n | 0 <= n < |ts| :: ts[n].from != ts[n].to)
    && (forall n | 0 < n < |ts| :: ts[n].from == ts[n - 1].to)
    && (if |ts| == 0 then from == to else ts[0].from == from && ts[|ts| - 1].to == to)
  }

  /** What can happen to an agent: a cycle, or being stopped (gracefully or not)
      and started again on whatever kernel state it then finds. */
  datatype Event = Tick(input: Input) | Restart(graceful: bool, found: Kernel.State)

  datatype Life = Life(node: Node, disk: Option<string>, announced: seq<Transition>)

  function Restored(cfg: Config, disk: Option<string>): State {
    if cfg.stateFile then StateFile.Stored(disk).GetOr(Healthy) else Healthy
  }

  /** A start resumes from the first line of the file that names a state, and from
      HEALTHY if there is none, no file, or no file configured. */
  lemma RestoredExactly(cfg: Config, disk: Option<string>, s: State)
    ensures var named := cfg.stateFile && disk.Some?
        && exists line | line in StateFile.Lines(disk.value) :: StateFile.ParseLine(line).Some?;
      Restored(cfg, disk) == s <==>
        if named then
          exists n: nat | n < |StateFile.Lines(disk.value)| ::
            && StateFile.Names(StateFile.Lines(disk.value)[n], s)
            && forall m | 0 <= m < n :: StateFile.ParseLine(StateFile.Lines(disk.value)[m]).None?
        else s == Healthy
  {
    hide StateFile.ParseLine, StateFile.Lines, StateFile.Names, StateFile.Parse;
    if cfg.stateFile && disk.Some? {
      var lines := StateFile.Lines(disk.value);
      StateFile.ParseFindsFirst(lines);
      forall line: string
        ensures StateFile.ParseLine(line) == Some(s) <==> StateFile.Names(line, s)
      {
        StateFile.LineNamesIff(line, s);
      }
    }
  }

  ghost function SavedBy(cfg: Config, change: Option<Transition>, disk: Option<string>): Option<string> {
    if change.Some? && cfg.stateFile then Some(StateFile.Render(change.value.to)) else disk
  }

  ghost function Live(cfg: Config, l: Life, e: Event): Life {
    match e
    case Tick(i) =>
      var o := Step(cfg, l.node, i);
      Life(o.node, SavedBy(cfg, o.told.change, l.disk),
           l.announced + if o.told.change.Some? then [o.told.change.value] else [])
    case Restart(graceful, found) =>
      var disk := if graceful && cfg.stateFile then Some(StateFile.Render(l.node.runner.lastState)) else l.disk;
      Life(Node(NewRunner(Restored(cfg, disk)), found), disk, l.announced)
  }

  ghost function LiveAll(cfg: Config, l: Life, es: seq<Event>): Life {
    if |es| == 0 then l else Live(cfg, LiveAll(cfg, l, es[..|es| - 1]), es[|es| - 1])
  }

  ghost function Born(cfg: Config, disk: Option<string>, found: Kernel.State): Life {
    Life(Node(NewRunner(Restored(cfg, disk)), found), disk, [])
  }

  lemma ChainExtends(from: State, ts: seq<Transition>, to: State, next: State)
    requires Chain(from, ts, to) && to != next
    ensures Chain(from, ts + [Transition(to, next)], next)
  {
  }

  lemma LifeStep(cfg: Config, first: State, l: Life, e: Event)
    requires cfg.stateFile
    requires Restored(cfg, l.disk) == l.node.runner.lastState && Chain(first, l.announced, l.node.runner.lastState)
    ensures var l' := Live(cfg, l, e);
      Restored(cfg, l'.disk) == l'.node.runner.lastState && Chain(first, l'.announced, l'.node.runner.lastState)
  {
    hide Step, StateFile.Stored, StateFile.Render;
    match e {
      case Tick(i) =>
        var o := Step(cfg, l.node, i);
        ConfirmStep(cfg, l.node, i);
        if o.told.change.Some? {
          StateFile.RoundTrip(o.told.change.value.to);
          ChainExtends(first, l.announced, l.node.runner.lastState, o.told.change.value.to);
        } else {
          assert l.announced + [] == l.announced;
        }
      case Restart(_, _) =>
        StateFile.RoundTrip(l.node.runner.lastState);
    }
  }

  /** With a state file, announcements form one connected chain over any mix of
      cycles, clean stops and crashes between cycles: a restart never repeats or
      skips a transition, whatever the file held at first. */
  lemma {:induction false} AnnouncementsChain(cfg: Config, disk: Option<string>, found: Kernel.State, es: seq<Event>)
    requires cfg.stateFile
    ensures var l := LiveAll(cfg, Born(cfg, disk, found), es);
      && Chain(Restored(cfg, disk), l.announced, l.node.runner.lastState)
      && Restored(cfg, l.disk) == l.node.runner.lastState
  {
    hide Live, Restored;
    if |es| > 0 {
      AnnouncementsChain(cfg, disk, found, es[..|es| - 1]);
      LifeStep(cfg, Restored(cfg, disk), LiveAll(cfg, Born(cfg, disk, found), es[..|es| - 1]), es[|es| - 1]);
    }
  }

  /** A further announcement repairs nothing: the extended chain is connected
      exactly if the chain before it was. */
  lemma ChainExtendsIff(from: State, ts: seq<Transition>, to: State, next: State)
    requires to != next
    ensures Chain(from, ts + [Transition(to, next)], next) <==> Chain(from, ts, to)
  {
    var all := ts + [Transition(to, next)];
    if Chain(from, all, next) {
      assert forall n | 0 <= n < |ts| :: all[n] == ts[n];
      assert all[|ts|].from == to;
    }
  }

  /** Every restart among the first events found the agent announcing HEALTHY. */
  ghost predicate RestartsHealthy(cfg: Config, l: Life, es: seq<Event>) {
    forall n | 0 <= n < |es| && es[n].Restart? :: LiveAll(cfg, l, es[..n]).node.runner.lastState == Healthy
  }

  lemma RestartsHealthyNext(cfg: Config, l: Life, es: seq<Event>)
    requires |es| > 0
    ensures var front := es[..|es| - 1];
      RestartsHealthy(cfg, l, es) <==>
        && RestartsHealthy(cfg, l, front)
        && (es[|es| - 1].Restart? ==> LiveAll(cfg, l, front).node.runner.lastState == Healthy)
  {
    hide Live;
    var front := es[..|es| - 1];
    assert forall n | 0 <= n < |front| :: front[..n] == es[..n] && front[n] == es[n];
  }

  /** What a life without a state file keeps: the announced state is the last
      one announced, or a restart has fallen back to HEALTHY. */
  ghost predicate Remembers(l: Life) {
    var last := l.node.runner.lastState;
    last == Healthy || (|l.announced| > 0 && l.announced[|l.announced| - 1].to == last)
  }

  lemma ForgetfulStep(cfg: Config, l: Life, e: Event)
    requires !cfg.stateFile && Remembers(l)
    ensures var l' := Live(cfg, l, e);
      && Remembers(l')
      && (Chain(Healthy, l'.announced, l'.node.runner.lastState) <==>
          && Chain(Healthy, l.announced, l.node.runner.lastState)
          && (e.Restart? ==> l.node.runner.lastState == Healthy))
  {
    hide Step, Attainable;
    match e {
      case Tick(i) =>
        var o := Step(cfg, l.node, i);
        ConfirmStep(cfg, l.node, i);
        if o.told.change.Some? {
          ChainExtendsIff(Healthy, l.announced, l.node.runner.lastState, o.told.change.value.to);
        } else {
          assert l.announced + [] == l.announced;
        }
      case Restart(_, _) =>
    }
  }

  /** Without a state file the announcements of a whole life form a connected
      chain exactly if every restart happened while the agent was announcing
      HEALTHY; one restart in another state breaks the chain for good. */
  lemma {:induction false} ForgetsWithoutFile(cfg: Config, disk: Option<string>, found: Kernel.State, es: seq<Event>)
    requires !cfg.stateFile
    ensures var l := LiveAll(cfg, Born(cfg, disk, found), es);
      && Remembers(l)
      && (Chain(Healthy, l.announced, l.node.runner.lastState) <==> RestartsHealthy(cfg, Born(cfg, disk, found), es))
  {
    hide Live, RestartsHealthy;
    var born := Born(cfg, disk, found);
    if |es| == 0 {
      NoRestarts(cfg, born);
    } else {
      var front, e := es[..|es| - 1], es[|es| - 1];
      ForgetsWithoutFile(cfg, disk, found, front);
      ForgetfulStep(cfg, LiveAll(cfg, born, front), e);
      RestartsHealthyNext(cfg, born, es);
    }
  }

  lemma NoRestarts(cfg: Config, l: Life)
    ensures RestartsHealthy(cfg, l, [])
  {
  }

  /** The announcements of one run form a chain too. */
  lemma {:induction false} RunChain(r: Run, i: nat)
    requires i <= |r.ins|
    ensures Chain(r.start.runner.lastState, r.Announced(i), r.At(i).runner.lastState)
  {
    hide Step, Attainable;
    if i > 0 {
      RunChain(r, i - 1);
      ConfirmStep(r.cfg, r.At(i - 1), r.ins[i - 1]);
      var change := r.Cycle(i - 1).told.change;
      if change.Some? {
        ChainExtends(r.start.runner.lastState, r.Announced(i - 1), r.At(i - 1).runner.lastState, change.value.to);
      }
    }
  }
}
