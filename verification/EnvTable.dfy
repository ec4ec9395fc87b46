/** kern/env.c and kern/sched.c in place: the environment array with its linked free list, and each processor's
    curenv. Functions that the C code never returns from end a processor's visit. */
module EnvTableModule {
  import opened Options
  import opened EnvIds
  import opened Words
  import K = Envs
  import ES = EnvSafety
  import FL = FreeLists
  import PT = PageTables

  /** struct Env with its env_link. */
  datatype EnvRec = EnvRec(status: K.Status, id: int, parent: int, recving: bool, link: Option<nat>)

  /** The links alone, as the list lemmas know them. */
  function Threads(es: seq<EnvRec>): (ps: seq<FL.PageInfo>)
    ensures |ps| == |es| && forall i :: 0 <= i < |es| ==> ps[i] == FL.PageInfo(es[i].link, 0)
  {
    seq(|es|, i requires 0 <= i < |es| => FL.PageInfo(es[i].link, 0))
  }

  function Plain(es: seq<EnvRec>): (envs: seq<K.Env>)
    ensures |envs| == |es|
    ensures forall i :: 0 <= i < |es| ==> envs[i] == K.Env(es[i].status, es[i].id, es[i].parent, es[i].recving)
  {
    seq(|es|, i requires 0 <= i < |es| => K.Env(es[i].status, es[i].id, es[i].parent, es[i].recving))
  }

  class EnvTable {
    const envs: array<EnvRec>
    const curenv: array<Option<nat>>
    var envFreeList: Option<nat>
    var stuck: bool

    ghost var freeSeq: seq<nat>

    /** The zeroed table, before env_init. */
    constructor (cpus: nat)
      ensures fresh(envs) && fresh(curenv) && envs.Length == NENV && curenv.Length == cpus && !stuck
      ensures forall i :: 0 <= i < NENV ==> envs[i] == EnvRec(K.Free, 0, 0, false, None)
      ensures forall c :: 0 <= c < cpus ==> curenv[c] == None
    {
      envs := new EnvRec[NENV](i => EnvRec(K.Free, 0, 0, false, None));
      curenv := new Option<nat>[cpus](c => None);
      envFreeList, stuck, freeSeq := None, false, [];
    }

    ghost predicate Valid()
      reads this, envs, curenv
    {
      && envs.Length == NENV
      && FL.Links(Threads(envs[..]), envFreeList, freeSeq) && PT.NoDuplicates(freeSeq)
      && (forall c :: 0 <= c < curenv.Length && curenv[c].Some? ==> curenv[c].value < NENV)
    }

    ghost function Abs(): K.Kernel
      reads this, envs, curenv
    {
      K.Kernel(Plain(envs[..]), freeSeq, curenv[..], stuck)
    }

    /** env_init, over a zeroed array: the loop links each environment behind the one before. */
    method EnvInit()
      requires envs.Length == NENV && forall i :: 0 <= i < NENV ==> envs[i].link == None && envs[i].parent == 0 && !envs[i].recving
      requires !stuck && forall c :: 0 <= c < curenv.Length ==> curenv[c] == None
      modifies this`envFreeList, this`freeSeq, envs
      ensures Valid()
      ensures Abs() == K.Init(curenv.Length)
    {
      envFreeList := Some(0);
      var tail := 0;
      var p := 0;
      while p < NENV
        invariant envFreeList == Some(0) && 0 <= p <= NENV && tail == if p == 0 then 0 else p - 1
        invariant forall i :: 0 <= i < p ==> envs[i] == EnvRec(K.Free, 0, 0, false, if i + 1 < p then Some(i + 1) else None)
        invariant forall i :: p <= i < NENV ==> envs[i].link == None && envs[i].parent == 0 && !envs[i].recving
      {
        envs[p] := envs[p].(status := K.Free, id := 0);
        if p != 0 {
          envs[tail] := envs[tail].(link := Some(p));
          tail := p;
        }
        p := p + 1;
      }
      freeSeq := K.Slots(NENV);
      assert forall i :: 0 <= i < NENV ==> FL.Next(freeSeq, i) == if i + 1 < NENV then Some(i + 1) else None;
    }

    /** env_alloc; `memory` says whether env_setup_vm found a page. */
    method EnvAlloc(parent: int, memory: bool) returns (e: Option<nat>, code: K.Code)
      requires Valid()
      modifies this`envFreeList, this`freeSeq, envs
      ensures Valid()
      ensures K.EnvAlloc(old(Abs()), parent, memory) == K.Allocated(Abs(), e, code)
      ensures e.Some? ==> e.value < NENV
    {
      if envFreeList == None {
        return None, K.NoFreeEnv;
      }
      if !memory {
        return None, K.NoMem;
      }
      var slot := envFreeList.value;
      FL.LinkAt(Threads(envs[..]), envFreeList, freeSeq, 0);
      FL.TailLinks(Threads(envs[..]), envFreeList, freeSeq);
      var generation := HighBits(Wrap32(envs[slot].id + 4096));
      if generation <= 0 {
        generation := 4096;
      }
      envs[slot] := EnvRec(K.Runnable, generation + slot, parent, false, envs[slot].link);
      assert Threads(envs[..]) == Threads(old(envs[..]));
      envFreeList := envs[slot].link;
      freeSeq := freeSeq[1..];
      assert Plain(envs[..]) == Plain(old(envs[..]))[slot := Plain(envs[..])[slot]];
      return Some(slot), K.Ok;
    }

    /** The end of env_free: the slot goes back on the list. */
    method EnvFree(e: nat)
      requires Valid() && e < NENV && e !in freeSeq
      modifies this`envFreeList, this`freeSeq, envs
      ensures Valid()
      ensures Abs() == K.EnvFree(old(Abs()), e)
      ensures envs[..] == old(envs[..])[e := old(envs[e]).(status := K.Free, link := old(envFreeList))]
    {
      FL.PushLinks(Threads(envs[..]), envFreeList, freeSeq, e);
      envs[e] := envs[e].(status := K.Free, link := envFreeList);
      assert Threads(envs[..]) == FL.SetLink(Threads(old(envs[..])), e, envFreeList);
      envFreeList := Some(e);
      freeSeq := [e] + freeSeq;
      assert Plain(envs[..]) == Plain(old(envs[..]))[e := Plain(envs[..])[e]];
    }

    /** One status word is overwritten. */
    method SetStatus(e: nat, status: K.Status)
      requires Valid() && e < NENV
      modifies envs
      ensures Valid()
      ensures Abs() == K.SetStatus(old(Abs()), e, status)
      ensures envs[..] == old(envs[..])[e := old(envs[e]).(status := status)]
    {
      envs[e] := envs[e].(status := status);
      assert Threads(envs[..]) == Threads(old(envs[..]));
      assert Plain(envs[..]) == Plain(old(envs[..]))[e := Plain(envs[..])[e]];
    }

    /** envid2env; None for -E_BAD_ENV. */
    method EnvOf(c: nat, envid: int, checkPerm: bool) returns (e: Option<nat>)
      requires Valid() && c < curenv.Length && (checkPerm && envid != 0 ==> curenv[c].Some?)
      ensures e == K.EnvOf(Abs(), c, envid, checkPerm)
      ensures envid == 0 ==> e == curenv[c]
      ensures envid != 0 ==> forall slot: nat ::
        e == Some(slot) <==>
          && slot == LowBits(envid) && envs[slot].status != K.Free && envs[slot].id == envid
          && (checkPerm ==> curenv[c] == Some(slot) || envs[slot].parent == envs[curenv[c].value].id)
    {
      if envid == 0 {
        return curenv[c];
      }
      var slot := LowBits(envid);
      if envs[slot].status == K.Free || envs[slot].id != envid {
        return None;
      }
      if checkPerm && Some(slot) != curenv[c] && envs[slot].parent != envs[curenv[c].value].id {
        return None;
      }
      return Some(slot);
    }

    method EnvRun(c: nat, e: nat)
      requires Valid() && c < curenv.Length && e < NENV
      modifies envs, curenv
      ensures Valid()
      ensures Abs() == K.EnvRun(old(Abs()), c, e)
      ensures curenv[c] == Some(e) && envs[e] == old(envs[e]).(status := K.Running)
      ensures forall x :: 0 <= x < NENV && x != e ==> envs[x] == old(envs[x]).(status :=
        if old(curenv[c]) == Some(x) && old(envs[x].status) == K.Running then K.Runnable else old(envs[x].status))
    {
      hide FL.Links, PT.NoDuplicates;
      if curenv[c].Some? && envs[curenv[c].value].status == K.Running {
        SetStatus(curenv[c].value, K.Runnable);
      }
      curenv[c] := Some(e);
      assert curenv[..] == old(curenv[..])[c := Some(e)];
      SetStatus(e, K.Running);
    }

    /** sched_halt; a kernel with nothing left to run stays in the monitor. */
    method SchedHalt(c: nat)
      requires Valid() && c < curenv.Length
      modifies this`stuck, curenv
      ensures Valid()
      ensures Abs() == K.SchedHalt(old(Abs()), c)
    {
      var i := 0;
      while i < NENV
        invariant 0 <= i <= NENV
        invariant forall e :: 0 <= e < i ==> envs[e].status == K.Free || envs[e].status == K.NotRunnable
      {
        if envs[i].status == K.Runnable || envs[i].status == K.Running || envs[i].status == K.Dying {
          assert !(K.Has(Abs(), i, K.Free) || K.Has(Abs(), i, K.NotRunnable));
          break;
        }
        i := i + 1;
      }
      if i == NENV {
        stuck := true;
        return;
      }
      curenv[c] := None;
      assert curenv[..] == old(curenv[..])[c := None];
    }

    /** The circular loop of sched_yield: the slot it would run. */
    method FindRunnable(start: nat) returns (found: Option<nat>)
      requires Valid()
      ensures found == K.Scan(Abs(), start, 0)
    {
      hide FL.Links, PT.NoDuplicates;
      var i := 0;
      while i < NENV
        invariant 0 <= i <= NENV && K.Scan(Abs(), start, i) == K.Scan(Abs(), start, 0)
      {
        var j := (start + i) % 1024;
        if envs[j].status == K.Runnable {
          return Some(j);
        }
        i := i + 1;
      }
      return None;
    }

    method SchedYield(c: nat)
      requires Valid() && c < curenv.Length
      modifies this`stuck, envs, curenv
      ensures Valid()
      ensures Abs() == K.SchedYield(old(Abs()), c)
    {
      hide FL.Links, PT.NoDuplicates, K.EnvRun, K.SchedHalt, K.Scan;
      var start := 0;
      if curenv[c].Some? {
        start := LowBits(envs[curenv[c].value].id) + 1;
      }
      assert start == K.Start(Abs(), c);
      hide K.Start;
      var next := FindRunnable(start);
      if next.Some? {
        EnvRun(c, next.value);
      } else if curenv[c].Some? && envs[curenv[c].value].status == K.Running {
        EnvRun(c, curenv[c].value);
      } else {
        SchedHalt(c);
      }
    }

    /** env_destroy; false where the C code does not return because another environment runs. */
    method EnvDestroy(c: nat, e: nat) returns (returned: bool)
      requires Valid() && c < curenv.Length && e < NENV && e !in freeSeq
      modifies this, envs, curenv
      ensures Valid()
      ensures Abs() == K.EnvDestroy(old(Abs()), c, e).k && returned == K.EnvDestroy(old(Abs()), c, e).returned
      ensures returned <==> old(curenv[c]) != Some(e)
      ensures returned ==> envs[e].status == if old(envs[e].status) == K.Running then K.Dying else K.Free
      ensures returned ==> curenv[..] == old(curenv[..]) && forall x :: 0 <= x < NENV && x != e ==> envs[x] == old(envs[x])
    {
      hide FL.Links, PT.NoDuplicates, K.SchedYield;
      if envs[e].status == K.Running && curenv[c] != Some(e) {
        SetStatus(e, K.Dying);
        return true;
      }
      EnvFree(e);
      if curenv[c] == Some(e) {
        curenv[c] := None;
        assert curenv[..] == old(curenv[..])[c := None];
        SchedYield(c);
        return false;
      }
      return true;
    }

    /** trap() for a processor with a current environment, up to the dispatch: a zombie is reaped. */
    method Reap(c: nat) returns (reaped: bool)
      requires Valid() && c < curenv.Length && curenv[c].Some? && curenv[c].value !in freeSeq
      modifies this, envs, curenv
      ensures Valid()
      ensures reaped <==> old(envs[curenv[c].value].status) == K.Dying
      ensures !reaped ==> Abs() == old(Abs())
      ensures reaped ==> forall event :: Abs() == K.Visit(old(Abs()), c, event)
    {
      var e := curenv[c].value;
      if envs[e].status == K.Dying {
        EnvFree(e);
        curenv[c] := None;
        assert curenv[..] == old(curenv[..])[c := None];
        SchedYield(c);
        return true;
      }
      return false;
    }

    /** The end of trap(). */
    method Return(c: nat)
      requires Valid() && c < curenv.Length
      modifies this`stuck, envs, curenv
      ensures Valid()
      ensures Abs() == K.Return(old(Abs()), c)
    {
      if curenv[c].Some? && envs[curenv[c].value].status == K.Running {
        EnvRun(c, curenv[c].value);
      } else {
        SchedYield(c);
      }
    }

    method SetRecving(e: nat, recving: bool)
      requires Valid() && e < NENV
      modifies envs
      ensures Valid()
      ensures Abs() == K.SetRecving(old(Abs()), e, recving)
    {
      envs[e] := envs[e].(recving := recving);
      assert Threads(envs[..]) == Threads(old(envs[..]));
      assert Plain(envs[..]) == Plain(old(envs[..]))[e := Plain(envs[..])[e]];
    }

    /** sys_exofork, to the end of trap(). */
    method SysExofork(c: nat, cur: nat, memory: bool)
      requires Valid() && c < curenv.Length && cur < NENV
      modifies this, envs, curenv
      ensures Valid()
      ensures Abs() == K.Dispatch(old(Abs()), c, cur, K.Exofork(memory))
    {
      hide FL.Links, PT.NoDuplicates, K.Return, K.EnvAlloc, K.SetStatus;
      var e, code := EnvAlloc(envs[cur].id, memory);
      if e.Some? { SetStatus(e.value, K.NotRunnable); }
      Return(c);
    }

    /** sys_env_destroy */
    method SysEnvDestroy(c: nat, cur: nat, envid: int)
      requires Valid() && ES.Inv(Abs()) && c < curenv.Length && curenv[c].Some?
      modifies this, envs, curenv
      ensures Valid()
      ensures Abs() == K.Dispatch(old(Abs()), c, cur, K.Destroy(envid))
    {
      hide ES.Inv, FL.Links, PT.NoDuplicates, K.Return, K.EnvDestroy, K.EnvOf, K.Finish;
      NamedInUse(Abs(), c, envid, true);
      var e := EnvOf(c, envid, true);
      if e.Some? { Destroy(c, e.value); } else { Return(c); }
    }

    /** sys_env_set_status */
    method SysEnvSetStatus(c: nat, cur: nat, envid: int, runnable: bool)
      requires Valid() && ES.Inv(Abs()) && c < curenv.Length && curenv[c].Some?
      modifies this, envs, curenv
      ensures Valid()
      ensures Abs() == K.Dispatch(old(Abs()), c, cur, K.SetRunnable(envid, runnable))
    {
      hide ES.Inv, FL.Links, PT.NoDuplicates, K.Return, K.EnvOf, K.SetStatus;
      NamedInUse(Abs(), c, envid, true);
      var e := EnvOf(c, envid, true);
      var status := if runnable then K.Runnable else K.NotRunnable;
      if e.Some? { SetStatus(e.value, status); }
      Return(c);
    }

    /** sys_ipc_recv */
    method SysIpcRecv(c: nat, cur: nat)
      requires Valid() && c < curenv.Length && cur < NENV
      modifies this, envs, curenv
      ensures Valid()
      ensures Abs() == K.Dispatch(old(Abs()), c, cur, K.Receive)
    {
      hide FL.Links, PT.NoDuplicates, K.SchedYield, K.SetStatus, K.SetRecving;
      SetStatus(cur, K.NotRunnable);
      SetRecving(cur, true);
      SchedYield(c);
    }

    /** sys_ipc_try_send; `delivered` says whether its page arguments are in order. */
    method SysIpcTrySend(c: nat, cur: nat, envid: int, delivered: bool)
      requires Valid() && ES.Inv(Abs()) && c < curenv.Length && curenv[c].Some?
      modifies this, envs, curenv
      ensures Valid()
      ensures Abs() == K.Dispatch(old(Abs()), c, cur, K.Send(envid, delivered))
    {
      hide ES.Inv, FL.Links, PT.NoDuplicates, K.Return, K.EnvOf, K.SetStatus, K.SetRecving;
      NamedInUse(Abs(), c, envid, false);
      var e := EnvOf(c, envid, false);
      if e.Some? && envs[e.value].recving && delivered {
        SetRecving(e.value, false);
        SetStatus(e.value, K.Runnable);
      }
      Return(c);
    }

    /** The event's own work, up to the return to trap() or to another environment. */
    method Dispatch(c: nat, event: K.Event)
      requires Valid() && ES.Inv(Abs()) && c < curenv.Length && curenv[c].Some? && !K.Has(Abs(), curenv[c].value, K.Dying)
      modifies this, envs, curenv
      ensures Valid()
      ensures Abs() == K.Dispatch(old(Abs()), c, old(curenv[c]).value, event)
    {
      var cur := curenv[c].value;
      CurrentInUse(Abs(), c, cur);
      hide ES.Inv, K.SchedYield, K.Return, K.EnvDestroy, K.EnvOf, K.EnvAlloc, K.SetStatus, K.SetRecving, K.Finish;
      hide FL.Links, PT.NoDuplicates, Threads;
      match event {
        case Yield => SchedYield(c);
        case Other => Return(c);
        case Fatal => Destroy(c, cur);
        case Exofork(memory) => SysExofork(c, cur, memory);
        case Destroy(envid) => SysEnvDestroy(c, cur, envid);
        case SetRunnable(envid, runnable) => SysEnvSetStatus(c, cur, envid, runnable);
        case Receive => SysIpcRecv(c, cur);
        case Send(envid, delivered) => SysIpcTrySend(c, cur, envid, delivered);
      }
    }

    /** env_destroy on behalf of trap(), which goes on if it returns. */
    method Destroy(c: nat, e: nat)
      requires Valid() && c < curenv.Length && e < NENV && e !in freeSeq
      modifies this, envs, curenv
      ensures Valid()
      ensures Abs() == K.Finish(K.EnvDestroy(old(Abs()), c, e), c)
    {
      var returned := EnvDestroy(c, e);
      if returned { Return(c); }
    }

    /** trap(): one whole visit of processor `c`, which keeps the table in order unless it reaches into the
        environment of another processor. */
    method Trap(c: nat, event: K.Event)
      requires Valid() && ES.Inv(Abs()) && !stuck && c < curenv.Length
      modifies this, envs, curenv
      ensures Valid()
      ensures Abs() == K.Visit(old(Abs()), c, event)
      ensures stuck || ES.Inv(Abs()) <==> !ES.Reaches(old(Abs()), c, event)
    {
      ES.VisitKeepsIff(Abs(), c, event);
      if curenv[c].None? {
        SchedYield(c);
        return;
      }
      CurrentInUse(Abs(), c, curenv[c].value);
      hide ES.Inv, K.Dispatch, ES.Reaches;
      var reaped := Reap(c);
      if !reaped {
        Dispatch(c, event);
      }
    }
  }

  lemma CurrentInUse(k: K.Kernel, c: nat, e: nat)
    requires ES.Inv(k) && K.Current(k, c) == Some(e)
    ensures e < NENV && e !in k.free
  {
    assert ES.On(k, c, e);
    assert K.Has(k, e, K.Running) || K.Has(k, e, K.Dying);
    assert e in k.free <==> K.Has(k, e, K.Free);
  }

  lemma NamedInUse(k: K.Kernel, c: nat, envid: int, checkPerm: bool)
    requires ES.Inv(k)
    ensures var e := K.EnvOf(k, c, envid, checkPerm); e.Some? ==> e.value < NENV && e.value !in k.free
  {
    var e := K.EnvOf(k, c, envid, checkPerm);
    if e.Some? {
      ES.EnvOfExists(k, c, envid, checkPerm);
      assert e.value in k.free <==> K.Has(k, e.value, K.Free);
    }
  }
}
