/** Two processors and two environments, from env_init on: runs whose next visit reaches into the environment that the
    other processor is on. */
module Zombies {
  import opened Options
  import opened EnvIds
  import opened Envs
  import opened EnvSafety
  import opened Scheduler

  const PARENT: int := 4096
  const CHILD: int := 4097

  /** The first two slots and who is on them; every other slot is free. */
  predicate Looks(k: Kernel, first: Env, second: Env, cur: seq<Option<nat>>) {
    && |k.envs| == NENV && k.envs[0] == first && k.envs[1] == second && k.cur == cur && !k.stuck
    && forall e :: 2 <= e < NENV ==> k.envs[e].status == Free
  }

  predicate Family(k: Kernel, parent: Status, child: Status, recving: bool, cur: seq<Option<nat>>) {
    Looks(k, Env(parent, PARENT, 0, false), Env(child, CHILD, PARENT, recving), cur)
  }

  /** Processor 0 starts the environment made at boot, which makes a child and lets it run, on processor 1. There the child
      waits for a message; its parent makes it runnable all the same, and processor 1 goes on with it. */
  const VISITS: seq<Call> := [
    Call(0, Yield), Call(0, Exofork(true)), Call(0, SetRunnable(CHILD, true)), Call(1, Yield),
    Call(1, Receive), Call(0, SetRunnable(CHILD, true)), Call(1, Yield)]

  /** The table after the first `n` of them. */
  function After(n: nat): Kernel
    requires n <= |VISITS|
  {
    if n == 0 then Booted(2, 1) else Visit(After(n - 1), VISITS[n - 1].cpu, VISITS[n - 1].event)
  }

  // ----- visit by visit -----

  lemma Booting()
    ensures var k := After(0);
      k.free == Slots(NENV)[1..] && Looks(k, Env(Runnable, PARENT, 0, false), Env(Free, 0, 0, false), [None, None])
  {
    assert Booted(2, 0) == Init(2);
    assert NextId(0, 0) == PARENT;
  }

  lemma FirstRuns(k: Kernel, child: Env)
    requires Looks(k, Env(Runnable, PARENT, 0, false), child, [None, None])
    ensures var k' := Visit(k, 0, Yield);
      k'.free == k.free && Looks(k', Env(Running, PARENT, 0, false), child, [Some(0), None])
  {
    ScanFromZero(k, 0, 0);
  }

  lemma ChildMade(k: Kernel)
    requires Looks(k, Env(Running, PARENT, 0, false), Env(Free, 0, 0, false), [Some(0), None]) && k.free == Slots(NENV)[1..]
    ensures Family(Visit(k, 0, Exofork(true)), Running, NotRunnable, false, [Some(0), None])
  {
    assert k.free[0] == 1;
    assert NextId(0, 1) == CHILD;
    var k1 := SetStatus(EnvAlloc(k, PARENT, true).k, 1, NotRunnable);
    assert Family(k1, Running, NotRunnable, false, [Some(0), None]);
    Returns(k1, NotRunnable, false, None);
  }

  lemma Returns(k: Kernel, child: Status, recving: bool, cur1: Option<nat>)
    requires Family(k, Running, child, recving, [Some(0), cur1])
    ensures Family(Return(k, 0), Running, child, recving, [Some(0), cur1])
  {
  }

  lemma ChildIs(k: Kernel, child: Status, recving: bool, cur1: Option<nat>, checkPerm: bool)
    requires Family(k, Running, child, recving, [Some(0), cur1]) && child != Free
    ensures EnvOf(k, 0, CHILD, checkPerm) == Some(1)
  {
    assert LowBits(CHILD) == 1;
  }

  lemma ChildFreed(k: Kernel, recving: bool, cur1: Option<nat>)
    requires Family(k, Running, NotRunnable, recving, [Some(0), cur1])
    ensures Family(Visit(k, 0, SetRunnable(CHILD, true)), Running, Runnable, recving, [Some(0), cur1])
  {
    ChildIs(k, NotRunnable, recving, cur1, true);
    Returns(SetStatus(k, 1, Runnable), Runnable, recving, cur1);
  }

  lemma ChildPicked(k: Kernel, recving: bool)
    requires Family(k, Running, Runnable, recving, [Some(0), None])
    ensures Family(Visit(k, 1, Yield), Running, Running, recving, [Some(0), Some(1)])
  {
    ScanFromZero(k, 0, 1);
  }

  lemma ChildWaits(k: Kernel)
    requires Family(k, Running, Running, false, [Some(0), Some(1)])
    ensures Family(Visit(k, 1, Receive), Running, NotRunnable, true, [Some(0), None])
  {
    var k1 := SetRecving(SetStatus(k, 1, NotRunnable), 1, true);
    assert forall e: nat :: !Has(k1, e, Runnable);
    assert k1.envs[0].status == Running;
  }

  lemma ChildDestroyed(k: Kernel)
    requires Family(k, Running, Running, false, [Some(0), Some(1)])
    ensures Family(Visit(k, 0, Destroy(CHILD)), Running, Dying, false, [Some(0), Some(1)])
  {
    ChildIs(k, Running, false, Some(1), true);
    Returns(SetStatus(k, 1, Dying), Dying, false, Some(1));
  }

  predicate Stage(n: nat, k: Kernel) {
    match n
    case 0 => k.free == Slots(NENV)[1..] && Looks(k, Env(Runnable, PARENT, 0, false), Env(Free, 0, 0, false), [None, None])
    case 1 => k.free == Slots(NENV)[1..] && Looks(k, Env(Running, PARENT, 0, false), Env(Free, 0, 0, false), [Some(0), None])
    case 2 => Family(k, Running, NotRunnable, false, [Some(0), None])
    case 3 => Family(k, Running, Runnable, false, [Some(0), None])
    case 4 => Family(k, Running, Running, false, [Some(0), Some(1)])
    case 5 => Family(k, Running, NotRunnable, true, [Some(0), None])
    case 6 => Family(k, Running, Runnable, true, [Some(0), None])
    case _ => Family(k, Running, Running, true, [Some(0), Some(1)])
  }

  lemma NextStage(n: nat, k: Kernel)
    requires n < |VISITS| && Stage(n, k)
    ensures Stage(n + 1, Visit(k, VISITS[n].cpu, VISITS[n].event)) && !Reaches(k, VISITS[n].cpu, VISITS[n].event)
  {
    match n
    case 0 => FirstRuns(k, Env(Free, 0, 0, false));
    case 1 => ChildMade(k);
    case 2 => ChildFreed(k, false, None);
    case 3 => ChildPicked(k, false);
    case 4 => ChildWaits(k);
    case 5 => ChildFreed(k, true, None);
    case 6 => ChildPicked(k, true);
  }

  lemma {:induction false} Stages(n: nat)
    requires n <= |VISITS|
    ensures Stage(n, After(n)) && Inv(After(n)) && !After(n).stuck && |After(n).cur| == 2
  {
    hide *;
    if n == 0 {
      Begins();
    } else {
      Stages(n - 1);
      NextStage(n - 1, After(n - 1));
      AfterVisit(n);
      StageRuns(n, After(n));
      VisitKeepsIff(After(n - 1), VISITS[n - 1].cpu, VISITS[n - 1].event);
      SettledInv(After(n));
    }
  }

  lemma Begins()
    ensures Stage(0, After(0)) && Inv(After(0)) && !After(0).stuck && |After(0).cur| == 2
  {
    hide Inv, Booted;
    AfterIsBooted();
    Booting();
    BootedInOrder(2, 1);
  }

  lemma AfterIsBooted()
    ensures After(0) == Booted(2, 1)
  {
  }

  lemma SettledInv(k: Kernel)
    requires Settled(k) && !k.stuck
    ensures Inv(k)
  {
  }

  lemma AfterVisit(n: nat)
    requires 0 < n <= |VISITS|
    ensures VISITS[n - 1].cpu < 2 && After(n) == Visit(After(n - 1), VISITS[n - 1].cpu, VISITS[n - 1].event)
  {
    hide Visit;
  }

  lemma StageRuns(n: nat, k: Kernel)
    requires Stage(n, k)
    ensures !k.stuck && |k.cur| == 2
  {
  }

  /** The table is in order, and processor `c`'s visit breaks it. */
  ghost predicate Breaks(k: Kernel, c: nat, event: Event) {
    Inv(k) && !k.stuck && c < |k.cur| && Reaches(k, c, event) && !Settled(Visit(k, c, event))
  }

  /** sys_env_set_status on a child that runs on another processor. */
  lemma ForcedStatus(runnable: bool)
    ensures Breaks(After(4), 0, SetRunnable(CHILD, runnable))
  {
    hide Inv, Visit, After;
    Stages(4);
    var k := After(4);
    ChildIs(k, Running, false, Some(1), true);
    VisitKeepsIff(k, 0, SetRunnable(CHILD, runnable));
  }

  /** env_destroy twice: the first makes the child a zombie, which processor 1 is still on; the second frees its slot. */
  lemma SecondDestroy()
    ensures Breaks(Visit(After(4), 0, Destroy(CHILD)), 0, Destroy(CHILD))
  {
    hide Inv, Visit, After;
    Stages(4);
    var k := After(4);
    ChildDestroyed(k);
    ChildIs(k, Running, false, Some(1), true);
    var k' := Visit(k, 0, Destroy(CHILD));
    ChildIs(k', Dying, false, Some(1), true);
    VisitKeepsIff(k, 0, Destroy(CHILD));
    VisitKeepsIff(k', 0, Destroy(CHILD));
  }

  /** sys_ipc_try_send to a child that was made runnable while it waited and now runs on another processor. */
  lemma ForcedBySend()
    ensures Breaks(After(7), 0, Send(CHILD, true))
  {
    hide Inv, Visit, After;
    Stages(7);
    var k := After(7);
    ChildIs(k, Running, true, Some(1), false);
    VisitKeepsIff(k, 0, Send(CHILD, true));
  }
}
