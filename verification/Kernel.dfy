/** The FreeBSD side of the agent: the VIP interface flag and the additive
    net.inet.carp.demotion counter (internal/carp/demotion.go, iface.go). */
module Kernel {

  /** Added by the kernel when the VIP interface goes down, taken back when it
      comes up. */
  const IFDOWN_DEMOTION := 240

  datatype State = State(up: bool, demotion: int)

  datatype Command = IfDown | IfUp | WriteDemotion(delta: int)

  /** What one command does to the kernel. Setting the flag to the value it
      already has is not a link change and moves no demotion. */
  function Exec(k: State, c: Command): State {
    match c
    case IfDown => if k.up then State(false, k.demotion + IFDOWN_DEMOTION) else k
    case IfUp => if k.up then k else State(true, k.demotion - IFDOWN_DEMOTION)
    case WriteDemotion(delta) => k.(demotion := k.demotion + delta)
  }

  function ExecAll(k: State, cs: seq<Command>): State {
    if |cs| == 0 then k else Exec(ExecAll(k, cs[..|cs| - 1]), cs[|cs| - 1])
  }

  lemma {:induction false} ExecAllConcat(k: State, a: seq<Command>, b: seq<Command>)
    ensures ExecAll(k, a + b) == ExecAll(ExecAll(k, a), b)
  {
    if |b| == 0 {
      assert a + b == a;
    } else {
      ExecAllConcat(k, a, b[..|b| - 1]);
      assert (a + b)[..|a + b| - 1] == a + b[..|b| - 1];
    }
  }

  /** Writes that take the counter to `target`; nothing when it is there. */
  function DemotionWrites(k: State, target: int): (writes: seq<Command>)
    ensures ExecAll(k, writes) == k.(demotion := target)
    ensures |writes| == if k.demotion == target then 0 else 1
  {
    if k.demotion == target then []
    else
      assert [WriteDemotion(target - k.demotion)][..0] == [];
      [WriteDemotion(target - k.demotion)]
  }

  /** Every interface command in `cs` changes the interface: down only when up
      and up only when down. */
  ghost predicate Alternates(k: State, cs: seq<Command>) {
    forall n | 0 <= n < |cs| ::
      && (cs[n].IfDown? ==> ExecAll(k, cs[..n]).up)
      && (cs[n].IfUp? ==> !ExecAll(k, cs[..n]).up)
  }

  lemma AlternatesConcat(k: State, a: seq<Command>, b: seq<Command>)
    requires Alternates(k, a) && Alternates(ExecAll(k, a), b)
    ensures Alternates(k, a + b)
  {
    var cs := a + b;
    forall n | 0 <= n < |cs|
      ensures cs[n].IfDown? ==> ExecAll(k, cs[..n]).up
      ensures cs[n].IfUp? ==> !ExecAll(k, cs[..n]).up
    {
      if n < |a| {
        assert cs[..n] == a[..n];
      } else {
        assert cs[..n] == a + b[..n - |a|];
        ExecAllConcat(k, a, b[..n - |a|]);
      }
    }
  }

  function Written(cs: seq<Command>): int {
    if |cs| == 0 then 0
    else Written(cs[..|cs| - 1]) + match cs[|cs| - 1] { case WriteDemotion(d) => d case _ => 0 }
  }

  /** Conservation: the counter is what was written plus 240 while down. */
  lemma {:induction false} CounterBalance(k: State, cs: seq<Command>)
    ensures var after := ExecAll(k, cs);
      after.demotion - (if after.up then 0 else 240) == k.demotion - (if k.up then 0 else 240) + Written(cs)
  {
    if |cs| > 0 {
      CounterBalance(k, cs[..|cs| - 1]);
    }
  }

  class Kernel {
    var up: bool
    var demotion: int
    ghost const boot: State
    ghost var log: seq<Command>

    ghost function View(): State
      reads this
    {
      State(up, demotion)
    }

    /** The live state is what the logged commands made of the boot state. */
    ghost predicate Valid()
      reads this
    {
      View() == ExecAll(boot, log)
    }

    constructor (up: bool, demotion: int)
      ensures Valid() && View() == State(up, demotion) && log == [] && boot == View()
    {
      this.up, this.demotion := up, demotion;
      boot := State(up, demotion);
      log := [];
    }

    method InterfaceDown()
      requires Valid()
      modifies this
      ensures Valid() && log == old(log) + [IfDown]
      ensures View() == Exec(old(View()), IfDown)
    {
      if up {
        up, demotion := false, demotion + IFDOWN_DEMOTION;
      }
      log := log + [IfDown];
    }

    method InterfaceUp()
      requires Valid()
      modifies this
      ensures Valid() && log == old(log) + [IfUp]
      ensures View() == Exec(old(View()), IfUp)
    {
      if !up {
        up, demotion := true, demotion - IFDOWN_DEMOTION;
      }
      log := log + [IfUp];
    }

    /** net.inet.carp.demotion adds what is written to it. */
    method WriteDemotionDelta(delta: int)
      requires Valid()
      modifies this
      ensures Valid() && log == old(log) + [WriteDemotion(delta)]
      ensures View() == Exec(old(View()), WriteDemotion(delta))
    {
      demotion := demotion + delta;
      log := log + [WriteDemotion(delta)];
    }

    method GetDemotion() returns (current: int)
      ensures current == View().demotion
    {
      current := demotion;
    }

    /** Reaches an absolute target through the additive counter. */
    method SetDemotion(target: int)
      requires Valid()
      modifies this
      ensures Valid() && View() == old(View()).(demotion := target)
      ensures log == old(log) + DemotionWrites(old(View()), target)
    {
      var current := GetDemotion();
      if current == target {
        assert log == log + [];
        return;
      }
      WriteDemotionDelta(target - current);
    }
  }
}
