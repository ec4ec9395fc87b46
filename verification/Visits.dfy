/** Every slot accounted for: what one processor's visit to the kernel does to each environment, said slot by slot, and
    what follows over whole runs. */
module Visits {
  import opened Options
  import opened EnvIds
  import opened Envs
  import opened EnvSafety

  // ----- envid2env -----

  /** Called for the environment in slot `own`, `envid` names slot `e`: 0 is the caller itself, any other id must be the one
      in its slot, and `checked` admits only the caller and environments whose parent it is. */
  predicate Names(k: Kernel, own: nat, envid: int, e: nat, checked: bool) {
    && own < |k.envs| && e < |k.envs|
    && if envid == 0 then e == own
       else
         && LowBits(envid) == e && k.envs[e].status != Free && k.envs[e].id == envid
         && (checked ==> e == own || k.envs[e].parent == k.envs[own].id)
  }

  /** With checkperm a non-zero id is accepted for curenv and for environments whose parent id is curenv's id, and for
      nobody else; without it, for every environment that has the id. */
  lemma EnvOfIff(k: Kernel, c: nat, own: nat, envid: int, checked: bool, e: nat)
    requires |k.envs| == NENV && own < NENV && Current(k, c) == Some(own)
    ensures envid == 0 ==> EnvOf(k, c, envid, checked) == Some(own)
    ensures envid != 0 ==>
      (EnvOf(k, c, envid, checked) == Some(e) <==>
        && e == LowBits(envid) && k.envs[e].status != Free && k.envs[e].id == envid
        && (checked ==> e == own || k.envs[e].parent == k.envs[own].id))
    ensures EnvOf(k, c, envid, checked) == Some(e) <==> Names(k, own, envid, e, checked)
  {
  }

  // ----- the event's own work, slot by slot -----

  /** The record in slot `e` once the event is dealt with and before the processor moves on. */
  function Wanted(k: Kernel, own: nat, event: Event, e: nat): Env
    requires e < |k.envs| && own < |k.envs|
  {
    var was := k.envs[e];
    match event
    case Yield => was
    case Other => was
    case Fatal => if e == own then was.(status := Free) else was
    case Exofork(memory) =>
      if memory && k.free != [] && e == k.free[0] then Env(NotRunnable, NextId(was.id, e), k.envs[own].id, false) else was
    case Destroy(envid) =>
      if !Names(k, own, envid, e, true) then was
      else if was.status == Running && e != own then was.(status := Dying)
      else was.(status := Free)
    case SetRunnable(envid, runnable) =>
      if Names(k, own, envid, e, true) then was.(status := if runnable then Runnable else NotRunnable) else was
    case Receive => if e == own then was.(status := NotRunnable, recving := true) else was
    case Send(envid, delivered) =>
      if Names(k, own, envid, e, false) && was.recving && delivered then was.(status := Runnable, recving := false) else was
  }

  /** The slot an event frees. */
  function Freed(k: Kernel, own: nat, event: Event): Option<nat>
    requires own < |k.envs|
  {
    match event
    case Fatal => Some(own)
    case Destroy(envid) =>
      var e := if envid == 0 then own else LowBits(envid);
      if Names(k, own, envid, e, true) && (k.envs[e].status != Running || e == own) then Some(e) else None
    case _ => None
  }

  /** The table once the event is dealt with. */
  function Done(k: Kernel, c: nat, own: nat, event: Event): (k': Kernel)
    requires own < |k.envs|
    ensures |k'.envs| == |k.envs| && forall e :: 0 <= e < |k.envs| ==> k'.envs[e] == Wanted(k, own, event, e)
  {
    var freed := Freed(k, own, event);
    Kernel(seq(|k.envs|, e requires 0 <= e < |k.envs| => Wanted(k, own, event, e)),
           if freed.Some? then [freed.value] + k.free
           else if event.Exofork? && event.memory && k.free != [] then k.free[1..]
           else k.free,
           if freed == Some(own) && c < |k.cur| then k.cur[c := None] else k.cur,
           k.stuck)
  }

  // ----- and then the processor moves on -----

  /** The processor is on another environment than before, or on none: the one it left is runnable again if it was running,
      the one it is on runs, and nothing else has changed. */
  ghost predicate Switched(k: Kernel, k': Kernel, c: nat) {
    && |k'.envs| == |k.envs| && k'.free == k.free && k'.stuck == k.stuck && |k'.cur| == |k.cur|
    && (forall d :: 0 <= d < |k.cur| && d != c ==> k'.cur[d] == k.cur[d])
    && (forall e :: 0 <= e < |k.envs| ==> k'.envs[e] == k.envs[e].(status :=
          if Current(k', c) == Some(e) then Running
          else if Current(k, c) == Some(e) && k.envs[e].status == Running then Runnable
          else k.envs[e].status))
  }

  predicate Continues(k: Kernel, c: nat) {
    var cur := Current(k, c);
    cur.Some? && Has(k, cur.value, Running)
  }

  /** sched_yield: to a runnable environment if there is one, else on with the current one, else to rest; the kernel stays in
      its monitor exactly if nothing runs or is dying anywhere. */
  ghost predicate Scheduled(k: Kernel, k': Kernel, c: nat) {
    if exists e: nat :: Has(k, e, Runnable) then
      Switched(k, k', c) && Current(k', c).Some? && Has(k, Current(k', c).value, Runnable)
    else if Continues(k, c) then k' == k
    else if forall e: nat :: !Has(k, e, Running) && !Has(k, e, Dying) then k' == k.(stuck := true)
    else c < |k.cur| && k' == k.(cur := k.cur[c := None])
  }

  lemma RunSwitches(k: Kernel, c: nat, e: nat)
    requires c < |k.cur| && e < |k.envs|
    ensures Switched(k, EnvRun(k, c, e), c) && Current(EnvRun(k, c, e), c) == Some(e)
    ensures Current(k, c) == Some(e) && Has(k, e, Running) ==> EnvRun(k, c, e) == k
  {
    var k' := EnvRun(k, c, e);
    if Current(k, c) == Some(e) && Has(k, e, Running) {
      assert k'.envs[e] == k.envs[e];
      assert k'.envs == k.envs && k'.cur == k.cur;
    }
  }

  lemma YieldSchedules(k: Kernel, c: nat)
    requires Shape(k) && c < |k.cur|
    ensures Scheduled(k, SchedYield(k, c), c)
  {
    var next := Scan(k, Start(k, c), 0);
    if next.Some? {
      RunSwitches(k, c, next.value);
    } else {
      NoneRunnable(k, Start(k, c));
      if Continues(k, c) {
        RunSwitches(k, c, Current(k, c).value);
      } else {
        HaltIs(k, c);
      }
    }
  }

  lemma HaltIs(k: Kernel, c: nat)
    requires Shape(k) && c < |k.cur| && forall e: nat :: !Has(k, e, Runnable)
    ensures SchedHalt(k, c) ==
      if forall e: nat :: !Has(k, e, Running) && !Has(k, e, Dying) then k.(stuck := true) else k.(cur := k.cur[c := None])
  {
    if forall e: nat :: !Has(k, e, Running) && !Has(k, e, Dying) {
      forall e | 0 <= e < |k.envs| ensures k.envs[e].status == Free || k.envs[e].status == NotRunnable {
        assert !Has(k, e, Runnable) && !Has(k, e, Running) && !Has(k, e, Dying);
      }
    }
  }

  /** Every slot has its turn in a scan, wherever it begins. */
  lemma TurnOf(start: nat, e: nat)
    requires e < NENV
    ensures exists t: nat :: t < NENV && Turn(start, t) == e
  {
    var t := (e - start) % 1024;
    var q := (e - start) / 1024;
    assert start + t == e + (-q) * 1024;
    assert Turn(start, t) == e;
  }

  /** A scan that finds nothing has looked at every slot. */
  lemma NoneRunnable(k: Kernel, start: nat)
    requires |k.envs| == NENV && Scan(k, start, 0).None?
    ensures forall e: nat :: !Has(k, e, Runnable)
  {
    hide Scan, Turn;
    forall e: nat ensures !Has(k, e, Runnable) {
      if e < NENV {
        TurnOf(start, e);
        var t: nat :| t < NENV && Turn(start, t) == e;
        assert !Has(k, Turn(start, t), Runnable);
      }
    }
  }

  // ----- whole visits -----

  /** sys_yield, sys_ipc_recv, and whatever ends the current environment, go to the scheduler; the rest go back to the current
      environment as long as it runs. */
  predicate Leaves(k: Kernel, own: nat, event: Event)
    requires own < |k.envs|
  {
    event.Yield? || event.Receive? || Freed(k, own, event) == Some(own)
  }

  lemma Extensional(k: Kernel, k': Kernel)
    requires |k.envs| == |k'.envs| && (forall e :: 0 <= e < |k.envs| ==> k.envs[e] == k'.envs[e])
    requires k.free == k'.free && k.cur == k'.cur && k.stuck == k'.stuck
    ensures k == k'
  {
  }

  /** The event's work is what Wanted and Freed say. */
  lemma DestroyIs(k: Kernel, c: nat, own: nat, event: Event, e: nat)
    requires own < |k.envs| == NENV && c < |k.cur| && k.cur[c] == Some(own) && Has(k, own, Running) && e < NENV
    requires !Has(k, e, Dying) || e != own
    requires forall x :: 0 <= x < NENV && x != e ==> Wanted(k, own, event, x) == k.envs[x]
    requires Wanted(k, own, event, e) == k.envs[e].(status := if Has(k, e, Running) && e != own then Dying else Free)
    requires Freed(k, own, event) == (if Has(k, e, Running) && e != own then None else Some(e)) && !event.Exofork?
    ensures Finish(EnvDestroy(k, c, e), c) ==
      if e == own then SchedYield(Done(k, c, own, event), c) else Return(Done(k, c, own, event), c)
  {
    hide SchedYield, Return, Wanted, Freed;
    var done := Done(k, c, own, event);
    if Has(k, e, Running) && e != own {
      Extensional(SetStatus(k, e, Dying), done);
    } else if e == own {
      Extensional(SetCurrent(EnvFree(k, e), c, None), done);
    } else {
      Extensional(EnvFree(k, e), done);
    }
  }

  lemma DispatchIs(k: Kernel, c: nat, own: nat, event: Event)
    requires own < |k.envs| == NENV && c < |k.cur| && k.cur[c] == Some(own) && Has(k, own, Running)
    requires forall i :: 0 <= i < |k.free| ==> k.free[i] < NENV
    ensures Dispatch(k, c, own, event) ==
      if Leaves(k, own, event) then SchedYield(Done(k, c, own, event), c) else Return(Done(k, c, own, event), c)
  {
    var done := Done(k, c, own, event);
    hide SchedYield, Return, EnvDestroy, Finish;
    match event
    case Yield => Extensional(k, done);
    case Other => Extensional(k, done);
    case Fatal => DestroyIs(k, c, own, event, own);
    case Exofork(memory) =>
      var r := EnvAlloc(k, k.envs[own].id, memory);
      Extensional(if r.e.Some? then SetStatus(r.k, r.e.value, NotRunnable) else r.k, done);
    case Destroy(envid) =>
      NamedBy(k, c, own, envid, true);
      var e := EnvOf(k, c, envid, true);
      if e.Some? {
        DestroyIs(k, c, own, event, e.value);
      } else {
        Extensional(k, done);
      }
    case SetRunnable(envid, runnable) =>
      NamedBy(k, c, own, envid, true);
      var e := EnvOf(k, c, envid, true);
      Extensional(if e.None? then k else SetStatus(k, e.value, if runnable then Runnable else NotRunnable), done);
    case Receive => Extensional(SetRecving(SetStatus(k, own, NotRunnable), own, true), done);
    case Send(envid, delivered) =>
      NamedBy(k, c, own, envid, false);
      var e := EnvOf(k, c, envid, false);
      Extensional(if e.None? || !Receiving(k, e.value) || !delivered then k
                  else SetStatus(SetRecving(k, e.value, false), e.value, Runnable), done);
  }

  lemma NamedBy(k: Kernel, c: nat, own: nat, envid: int, checked: bool)
    requires |k.envs| == NENV && own < NENV && Current(k, c) == Some(own)
    ensures var r := EnvOf(k, c, envid, checked);
      && (forall e: nat :: Names(k, own, envid, e, checked) <==> r == Some(e))
      && (r.Some? ==> r.value < NENV && r.value == if envid == 0 then own else LowBits(envid))
      && (r.None? ==> envid != 0)
  {
    forall e: nat ensures Names(k, own, envid, e, checked) <==> EnvOf(k, c, envid, checked) == Some(e) {
      EnvOfIff(k, c, own, envid, checked, e);
    }
  }

  /** The table once the visit's own work is done: a halted processor has none, a zombie is freed. */
  function Worked(k: Kernel, c: nat, event: Event): Kernel {
    var cur := Current(k, c);
    if cur.None? || cur.value >= |k.envs| then k
    else Done(k, c, cur.value, if Has(k, cur.value, Dying) then Fatal else event)
  }

  /** The processor returns to its environment, if that still runs. */
  predicate Returns(k: Kernel, c: nat, event: Event) {
    var cur := Current(k, c);
    cur.Some? && cur.value < |k.envs| && !Has(k, cur.value, Dying) && !Leaves(k, cur.value, event) && Continues(Worked(k, c, event), c)
  }

  lemma WorkedShape(k: Kernel, c: nat, event: Event)
    requires Shape(k)
    ensures Shape(Worked(k, c, event)) && |Worked(k, c, event).cur| == |k.cur| && Worked(k, c, event).stuck == k.stuck
  {
    hide Wanted;
  }

  lemma ReapIs(k: Kernel, c: nat, own: nat)
    requires own < |k.envs| == NENV && c < |k.cur| && k.cur[c] == Some(own)
    ensures SetCurrent(EnvFree(k, own), c, None) == Done(k, c, own, Fatal)
  {
    Extensional(SetCurrent(EnvFree(k, own), c, None), Done(k, c, own, Fatal));
  }

  /** A visit is the event's work, slot by slot, and then the processor returns to its environment or goes where the
      scheduler sends it. Nothing else in the table changes. */
  lemma VisitIs(k: Kernel, c: nat, event: Event)
    requires Inv(k) && c < |k.cur|
    ensures if Returns(k, c, event) then Visit(k, c, event) == Worked(k, c, event)
      else Scheduled(Worked(k, c, event), Visit(k, c, event), c)
  {
    var cur := Current(k, c);
    var w := Worked(k, c, event);
    WorkedShape(k, c, event);
    CurrentStands(k, c);
    hide Inv, Done, Scheduled, SchedYield, Dispatch;
    YieldSchedules(w, c);
    if cur.Some? {
      if Has(k, cur.value, Dying) {
        ReapIs(k, c, cur.value);
      } else {
        DispatchIs(k, c, cur.value, event);
        hide Leaves;
        if Continues(w, c) {
          RunSwitches(w, c, Current(w, c).value);
        }
      }
    }
  }

  lemma CurrentStands(k: Kernel, c: nat)
    requires Inv(k) && c < |k.cur|
    ensures |k.envs| == NENV && Shape(k)
    ensures Current(k, c).Some? ==>
      var e := Current(k, c).value; e < NENV && (Has(k, e, Running) || Has(k, e, Dying)) && k.envs[e].id > 0 && LowBits(k.envs[e].id) == e
  {
    if Current(k, c).Some? {
      assert On(k, c, Current(k, c).value);
      assert Has(k, Current(k, c).value, Running) || Has(k, Current(k, c).value, Dying);
    }
  }

  // ----- nobody is lost -----

  predicate Alive(k: Kernel, e: nat) {
    Has(k, e, Runnable) || Has(k, e, Running)
  }

  lemma SchedulingKeepsAlive(k: Kernel, k': Kernel, c: nat, e: nat)
    requires Scheduled(k, k', c)
    ensures Alive(k', e) <==> Alive(k, e)
  {
  }

  /** The environments that run or may run after a visit are those that the event's work left so: scheduling loses none and
      wakes none. A yield, or a trap that touches no environment, keeps exactly those there were. */
  lemma NobodyLost(k: Kernel, c: nat, event: Event, e: nat)
    requires Inv(k) && c < |k.cur|
    ensures Alive(Visit(k, c, event), e) <==> Alive(Worked(k, c, event), e)
    ensures event.Yield? || event.Other? ==> (Alive(Visit(k, c, event), e) <==> Alive(k, e))
  {
    VisitIs(k, c, event);
    if !Returns(k, c, event) {
      SchedulingKeepsAlive(Worked(k, c, event), Visit(k, c, event), c, e);
    }
    CurrentStands(k, c);
    hide Inv, Visit, Scheduled;
  }

  /** Over every run of yields, timer ticks and other such traps, on any number of processors, the same environments
      run or may run. */
  lemma {:induction false} RunLosesNobody(ks: seq<Kernel>, calls: seq<Call>, e: nat)
    requires Run(ks, calls) && Inv(ks[0]) && forall i :: 0 <= i < |calls| ==> calls[i].event.Yield? || calls[i].event.Other?
    ensures Alive(ks[|calls|], e) <==> Alive(ks[0], e)
  {
    if calls != [] {
      var n := |calls| - 1;
      RunsKeep(ks, calls);
      hide Inv, Visit;
      assert ks[..n + 1][n] == ks[n];
      RunLosesNobody(ks[..n + 1], calls[..n], e);
      NobodyLost(ks[n], calls[n].cpu, calls[n].event, e);
    }
  }

  /** Preemption: the processor ends on a running environment; if that is another one, it was runnable, and the one left
      behind is runnable. No other record changes. */
  lemma PreemptedWaits(k: Kernel, c: nat, e: nat)
    requires Inv(k) && On(k, c, e) && Has(k, e, Running)
    ensures var k' := Visit(k, c, Yield); var next := Current(k', c);
      && next.Some? && Has(k', next.value, Running) && k'.free == k.free && k'.stuck == k.stuck
      && (next == Some(e) ==> k' == k)
      && (next != Some(e) ==> Has(k, next.value, Runnable) && Has(k', e, Runnable))
      && |k'.envs| == |k.envs| && forall x :: 0 <= x < |k.envs| && x != e && Some(x) != next ==> k'.envs[x] == k.envs[x]
  {
    VisitIs(k, c, Yield);
    CurrentStands(k, c);
    Extensional(Worked(k, c, Yield), k);
    hide Inv, Visit, Worked;
  }

  /** A trap that touches no environment returns to the one it came from and changes nothing. */
  lemma OthersReturn(k: Kernel, c: nat, e: nat)
    requires Inv(k) && On(k, c, e) && Has(k, e, Running)
    ensures Visit(k, c, Other) == k
  {
    VisitIs(k, c, Other);
    CurrentStands(k, c);
    Extensional(Worked(k, c, Other), k);
    hide Inv, Visit, Worked;
  }

  /** The kernel ends in its monitor exactly if no environment is left that runs, may run or is dying. */
  lemma StuckIff(k: Kernel, c: nat, event: Event)
    requires Inv(k) && !k.stuck && c < |k.cur|
    ensures var k' := Visit(k, c, event);
      k'.stuck <==> forall e: nat :: e < |k'.envs| ==> k'.envs[e].status == Free || k'.envs[e].status == NotRunnable
  {
    VisitIs(k, c, event);
    WorkedShape(k, c, event);
    var w, k' := Worked(k, c, event), Visit(k, c, event);
    assert !w.stuck && |k'.envs| == |w.envs|;
    hide Inv, Visit, Worked, Returns;
    if k'.stuck {
      forall e: nat | e < |k'.envs| ensures k'.envs[e].status == Free || k'.envs[e].status == NotRunnable {
        assert !Has(w, e, Runnable) && !Has(w, e, Running) && !Has(w, e, Dying);
      }
    } else {
      StillBusy(w, k', c);
    }
  }

  lemma StillBusy(w: Kernel, k': Kernel, c: nat)
    requires !k'.stuck && ((k' == w && Continues(w, c)) || Scheduled(w, k', c))
    ensures exists e: nat :: e < |k'.envs| && k'.envs[e].status != Free && k'.envs[e].status != NotRunnable
  {
    if exists e: nat :: Has(w, e, Runnable) {
      if k' != w || !Continues(w, c) {
        var n := Current(k', c).value;
        assert k'.envs[n].status == Running;
      } else {
        assert k'.envs[Current(w, c).value].status == Running;
      }
    } else if Continues(w, c) {
      assert k'.envs[Current(w, c).value].status == Running;
    } else {
      var e: nat :| Has(w, e, Running) || Has(w, e, Dying);
      assert k'.envs[e].status == Running || k'.envs[e].status == Dying;
    }
  }

  // ----- what each call does -----

  /** sys_env_destroy of an environment that the caller may destroy. One that runs on another processor becomes a zombie; any
      other is freed, and its slot is the next to be allocated. Every other slot is as before, except that a caller who
      ended itself makes room for a runnable environment. */
  lemma DestroyOutcome(k: Kernel, c: nat, own: nat, envid: int, e: nat)
    requires Inv(k) && On(k, c, own) && Has(k, own, Running) && e < |k.envs|
    requires if envid == 0 then e == own
      else k.envs[e].status != Free && k.envs[e].id == envid && (e == own || k.envs[e].parent == k.envs[own].id)
    ensures var k' := Visit(k, c, Destroy(envid));
      && |k'.envs| == |k.envs|
      && (if Has(k, e, Running) && e != own then k'.envs[e] == k.envs[e].(status := Dying) && k'.free == k.free
          else k'.envs[e] == k.envs[e].(status := Free) && k'.free == [e] + k.free)
      && (e != own ==> k'.cur == k.cur && forall x :: 0 <= x < |k.envs| && x != e ==> k'.envs[x] == k.envs[x])
      && (e == own ==> MadeRoom(k, k', c, own))
  {
    CurrentStands(k, c);
    IdHasSlot(k, e);
    VisitIs(k, c, Destroy(envid));
    hide Inv, Visit;
    if e == own {
      RoomMade(k, Worked(k, c, Destroy(envid)), Visit(k, c, Destroy(envid)), c, own);
    }
  }

  lemma IdHasSlot(k: Kernel, e: nat)
    requires Inv(k) && e < |k.envs|
    ensures k.envs[e].status != Free ==> k.envs[e].id > 0 && LowBits(k.envs[e].id) == e
  {
  }

  /** Of the slots other than `own` at most one has changed: a runnable environment now runs on processor `c`. */
  ghost predicate MadeRoom(k: Kernel, k': Kernel, c: nat, own: nat) {
    && |k'.envs| == |k.envs|
    && forall x :: 0 <= x < |k.envs| && x != own ==>
         || k'.envs[x] == k.envs[x]
         || (Current(k', c) == Some(x) && k.envs[x].status == Runnable && k'.envs[x] == k.envs[x].(status := Running))
  }

  lemma RoomMade(k: Kernel, w: Kernel, k': Kernel, c: nat, own: nat)
    requires Scheduled(w, k', c) && |w.envs| == |k.envs| && (Current(w, c) == None || Current(w, c) == Some(own))
    requires forall x :: 0 <= x < |k.envs| && x != own ==> w.envs[x] == k.envs[x]
    requires own < |k.envs| && (w.envs[own].status == Free || w.envs[own].status == NotRunnable)
    ensures MadeRoom(k, k', c, own) && k'.envs[own] == w.envs[own] && k'.free == w.free
  {
  }

  /** Any other environment is refused, and nothing changes: sys_env_destroy and sys_env_set_status reach no stranger. */
  lemma StrangersRefused(k: Kernel, c: nat, own: nat, envid: int, event: Event)
    requires Inv(k) && On(k, c, own) && Has(k, own, Running) && envid != 0
    requires event == Destroy(envid) || event == SetRunnable(envid, true) || event == SetRunnable(envid, false)
    requires forall e: nat :: e < |k.envs| && k.envs[e].status != Free && k.envs[e].id == envid ==>
      e != own && k.envs[e].parent != k.envs[own].id
    ensures Visit(k, c, event) == k
  {
    CurrentStands(k, c);
    VisitIs(k, c, event);
    var w := Worked(k, c, event);
    assert forall e: nat :: !Names(k, own, envid, e, true);
    Extensional(w, k);
    hide Inv, Visit;
  }

  /** A fault ends the environment it came from, and no other. */
  lemma FatalOutcome(k: Kernel, c: nat, own: nat)
    requires Inv(k) && On(k, c, own) && Has(k, own, Running)
    ensures var k' := Visit(k, c, Fatal);
      MadeRoom(k, k', c, own) && k'.envs[own] == k.envs[own].(status := Free) && k'.free == [own] + k.free
  {
    CurrentStands(k, c);
    VisitIs(k, c, Fatal);
    hide Inv, Visit;
    RoomMade(k, Worked(k, c, Fatal), Visit(k, c, Fatal), c, own);
  }

  /** Isolation: whatever a processor's environment does, short of sending to it or being given its slot, an environment that is
      neither its own nor its child, nor the one the processor runs next, keeps its whole record. */
  lemma Isolation(k: Kernel, c: nat, own: nat, event: Event, x: nat)
    requires Inv(k) && On(k, c, own) && Has(k, own, Running) && x < |k.envs| && !event.Send?
    requires x != own && k.envs[x].parent != k.envs[own].id && !(event.Exofork? && k.free != [] && x == k.free[0])
    ensures var k' := Visit(k, c, event);
      |k'.envs| == |k.envs| && (Current(k', c) != Some(x) ==> k'.envs[x] == k.envs[x])
  {
    hide *;
    WorkLeaves(k, c, own, event, x);
    VisitIs(k, c, event);
    if !Returns(k, c, event) {
      SchedulingLeaves(Worked(k, c, event), Visit(k, c, event), c, own, x);
    }
  }

  lemma WorkLeaves(k: Kernel, c: nat, own: nat, event: Event, x: nat)
    requires Inv(k) && On(k, c, own) && Has(k, own, Running) && x < |k.envs| && !event.Send?
    requires x != own && k.envs[x].parent != k.envs[own].id && !(event.Exofork? && k.free != [] && x == k.free[0])
    ensures var w := Worked(k, c, event);
      && c < |k.cur| && |w.envs| == |k.envs| && w.envs[x] == k.envs[x]
      && (Current(w, c) == None || Current(w, c) == Some(own))
  {
    CurrentStands(k, c);
    hide Inv;
  }

  lemma SchedulingLeaves(w: Kernel, k': Kernel, c: nat, own: nat, x: nat)
    requires Scheduled(w, k', c) && x < |w.envs| && x != own && (Current(w, c) == None || Current(w, c) == Some(own))
    ensures |k'.envs| == |w.envs| && (Current(k', c) != Some(x) ==> k'.envs[x] == w.envs[x])
  {
  }

  /** sys_exofork: the new environment waits, its parent is the caller, and nothing else changes; without a slot or memory
      nothing changes at all. */
  lemma ExoforkOutcome(k: Kernel, c: nat, own: nat, memory: bool)
    requires Inv(k) && On(k, c, own) && Has(k, own, Running)
    ensures var k' := Visit(k, c, Exofork(memory));
      if memory && k.free != [] then
        && k.free[0] < |k.envs|
        && k' == k.(envs := k.envs[k.free[0] := Env(NotRunnable, NextId(k.envs[k.free[0]].id, k.free[0]), k.envs[own].id, false)],
                    free := k.free[1..])
      else k' == k
  {
    CurrentStands(k, c);
    VisitIs(k, c, Exofork(memory));
    FirstFree(k);
    var w := Worked(k, c, Exofork(memory));
    hide Inv, Visit;
    if memory && k.free != [] {
      Extensional(w, k.(envs := k.envs[k.free[0] := Env(NotRunnable, NextId(k.envs[k.free[0]].id, k.free[0]), k.envs[own].id, false)],
                        free := k.free[1..]));
    } else {
      Extensional(w, k);
    }
  }

  lemma FirstFree(k: Kernel)
    requires Inv(k)
    ensures k.free != [] ==> k.free[0] < |k.envs| && k.envs[k.free[0]].status == Free
  {
    assert k.free != [] ==> k.free[0] in k.free;
  }

  /** sys_env_set_status of a child. */
  lemma SetStatusOutcome(k: Kernel, c: nat, own: nat, envid: int, runnable: bool, e: nat)
    requires Inv(k) && On(k, c, own) && Has(k, own, Running) && envid != 0 && e < |k.envs| && e != own
    requires k.envs[e].status != Free && k.envs[e].id == envid && k.envs[e].parent == k.envs[own].id
    ensures Visit(k, c, SetRunnable(envid, runnable)) ==
      k.(envs := k.envs[e := k.envs[e].(status := if runnable then Runnable else NotRunnable)])
  {
    CurrentStands(k, c);
    IdHasSlot(k, e);
    VisitIs(k, c, SetRunnable(envid, runnable));
    hide Inv, Visit;
    Extensional(Worked(k, c, SetRunnable(envid, runnable)),
                k.(envs := k.envs[e := k.envs[e].(status := if runnable then Runnable else NotRunnable)]));
  }

  /** sys_ipc_recv: the caller sleeps, waiting. */
  lemma ReceiveOutcome(k: Kernel, c: nat, own: nat)
    requires Inv(k) && On(k, c, own) && Has(k, own, Running)
    ensures var k' := Visit(k, c, Receive);
      MadeRoom(k, k', c, own) && k'.envs[own] == k.envs[own].(status := NotRunnable, recving := true) && k'.free == k.free
  {
    CurrentStands(k, c);
    VisitIs(k, c, Receive);
    hide Inv, Visit;
    RoomMade(k, Worked(k, c, Receive), Visit(k, c, Receive), c, own);
  }

  /** sys_ipc_try_send wakes an environment that waits, by whomever it is sent, and nobody else. */
  lemma SendOutcome(k: Kernel, c: nat, own: nat, envid: int, delivered: bool, e: nat)
    requires Inv(k) && On(k, c, own) && Has(k, own, Running) && envid != 0 && e < |k.envs| && e != own
    requires k.envs[e].status != Free && k.envs[e].id == envid
    ensures Visit(k, c, Send(envid, delivered)) ==
      if delivered && k.envs[e].recving then k.(envs := k.envs[e := k.envs[e].(status := Runnable, recving := false)]) else k
  {
    CurrentStands(k, c);
    IdHasSlot(k, e);
    VisitIs(k, c, Send(envid, delivered));
    hide Inv, Visit;
    Extensional(Worked(k, c, Send(envid, delivered)),
      if delivered && k.envs[e].recving then k.(envs := k.envs[e := k.envs[e].(status := Runnable, recving := false)]) else k);
  }
}
