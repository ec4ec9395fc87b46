/** kern/env.c, kern/sched.c and the trap path as functions on the environment table: what one processor does
    between acquiring and releasing the kernel lock. */
module Envs {
  import opened Options
  import opened EnvIds

  datatype Status = Free | Dying | Runnable | Running | NotRunnable

  /** struct Env, without registers and memory. */
  datatype Env = Env(status: Status, id: int, parent: int, recving: bool)

  /** `free` is the order of env_free_list, `cur` each processor's curenv. `stuck` is the state of a kernel that
      found nothing to run and sits in the monitor, holding the lock for good. */
  datatype Kernel = Kernel(envs: seq<Env>, free: seq<nat>, cur: seq<Option<nat>>, stuck: bool)

  predicate Shape(k: Kernel) {
    && |k.envs| == NENV
    && (forall i :: 0 <= i < |k.free| ==> k.free[i] < NENV)
    && (forall c :: 0 <= c < |k.cur| && k.cur[c].Some? ==> k.cur[c].value < NENV)
  }

  predicate Has(k: Kernel, e: nat, status: Status) {
    e < |k.envs| && k.envs[e].status == status
  }

  function SetStatus(k: Kernel, e: nat, status: Status): Kernel {
    if e < |k.envs| then k.(envs := k.envs[e := k.envs[e].(status := status)]) else k
  }

  function Current(k: Kernel, c: nat): Option<nat> {
    if c < |k.cur| then k.cur[c] else None
  }

  function SetCurrent(k: Kernel, c: nat, e: Option<nat>): Kernel {
    if c < |k.cur| then k.(cur := k.cur[c := e]) else k
  }

  // ----- env_init, env_alloc, env_free -----

  function Slots(n: nat): (q: seq<nat>)
    ensures |q| == n && forall i :: 0 <= i < n ==> q[i] == i
  {
    seq(n, i => i)
  }

  /** What env_init leaves, before any processor runs anything. */
  function Init(cpus: nat): Kernel {
    Kernel(seq(NENV, i => Env(Free, 0, 0, false)), Slots(NENV), seq(cpus, c => None), false)
  }

  /** env_alloc's result codes: 0, -E_NO_FREE_ENV and -E_NO_MEM. */
  datatype Code = Ok | NoFreeEnv | NoMem

  datatype Allocated = Allocated(k: Kernel, e: Option<nat>, code: Code)

  /** env_alloc; `memory` says whether env_setup_vm found a page. */
  function EnvAlloc(k: Kernel, parent: int, memory: bool): Allocated {
    if k.free == [] then Allocated(k, None, NoFreeEnv)
    else if !memory then Allocated(k, None, NoMem)
    else
      var e := k.free[0];
      var k' := if e < |k.envs| then k.(envs := k.envs[e := Env(Runnable, NextId(k.envs[e].id, e), parent, false)]) else k;
      Allocated(k'.(free := k.free[1..]), Some(e), Ok)
  }

  /** The table half of env_free. */
  function EnvFree(k: Kernel, e: nat): Kernel {
    SetStatus(k, e, Free).(free := [e] + k.free)
  }

  // ----- envid2env -----

  /** None for -E_BAD_ENV. For envid 0 the C code stores curenv, here `Current`. */
  function EnvOf(k: Kernel, c: nat, envid: int, checkPerm: bool): Option<nat> {
    if envid == 0 then Current(k, c)
    else
      var e := LowBits(envid);
      if e >= |k.envs| || k.envs[e].status == Free || k.envs[e].id != envid then None
      else if checkPerm && Current(k, c) != Some(e) && !ChildOfCurrent(k, c, e) then None
      else Some(e)
  }

  predicate ChildOfCurrent(k: Kernel, c: nat, e: nat) {
    var cur := Current(k, c);
    cur.Some? && cur.value < |k.envs| && e < |k.envs| && k.envs[e].parent == k.envs[cur.value].id
  }

  // ----- env_run, sched_yield, sched_halt -----

  function EnvRun(k: Kernel, c: nat, e: nat): Kernel {
    var was := Current(k, c);
    var k1 := if was.Some? && Has(k, was.value, Running) then SetStatus(k, was.value, Runnable) else k;
    SetStatus(SetCurrent(k1, c, Some(e)), e, Running)
  }

  /** sched_halt: with nothing runnable, running or dying the kernel never leaves the monitor. */
  function SchedHalt(k: Kernel, c: nat): Kernel {
    if forall e :: 0 <= e < |k.envs| ==> k.envs[e].status == Free || k.envs[e].status == NotRunnable
    then k.(stuck := true)
    else SetCurrent(k, c, None)
  }

  /** Where the scan starts. */
  function Start(k: Kernel, c: nat): nat {
    var cur := Current(k, c);
    if cur.Some? && cur.value < |k.envs| then LowBits(k.envs[cur.value].id) + 1 else 0
  }

  /** Turn `t` of a scan that began at slot `start`. */
  function Turn(start: nat, t: nat): nat { (start + t) % 1024 }

  /** The first RUNNABLE slot in circular order, from turn `t` of the scan on. */
  function Scan(k: Kernel, start: nat, t: nat): (r: Option<nat>)
    ensures r.Some? ==> Has(k, r.value, Runnable) && r.value < NENV
    ensures r.None? ==> forall u :: t <= u < NENV ==> !Has(k, Turn(start, u), Runnable)
    decreases NENV - t
  {
    if t >= NENV then None
    else if Has(k, Turn(start, t), Runnable) then Some(Turn(start, t))
    else Scan(k, start, t + 1)
  }

  function SchedYield(k: Kernel, c: nat): Kernel {
    var next := Scan(k, Start(k, c), 0);
    var cur := Current(k, c);
    if next.Some? then EnvRun(k, c, next.value)
    else if cur.Some? && Has(k, cur.value, Running) then EnvRun(k, c, cur.value)
    else SchedHalt(k, c)
  }

  // ----- env_destroy, and a processor's visit to the kernel -----

  /** env_destroy, and whether it returned to its caller. */
  datatype Destroyed = Destroyed(k: Kernel, returned: bool)

  function EnvDestroy(k: Kernel, c: nat, e: nat): Destroyed {
    if Has(k, e, Running) && Current(k, c) != Some(e) then Destroyed(SetStatus(k, e, Dying), true)
    else if Current(k, c) == Some(e) then Destroyed(SchedYield(SetCurrent(EnvFree(k, e), c, None), c), false)
    else Destroyed(EnvFree(k, e), true)
  }

  /** Why the processor came in: the timer or sys_yield, a trap that touches no environment, a fault that kills
      the environment, or one of the environment system calls. */
  datatype Event =
    | Yield
    | Other
    | Fatal
    | Exofork(memory: bool)
    | Destroy(envid: int)
    | SetRunnable(envid: int, runnable: bool)
    | Receive
    | Send(envid: int, delivered: bool)

  /** The end of trap(): back to curenv if it still runs. */
  function Return(k: Kernel, c: nat): Kernel {
    var cur := Current(k, c);
    if cur.Some? && Has(k, cur.value, Running) then EnvRun(k, c, cur.value) else SchedYield(k, c)
  }

  function Dispatch(k: Kernel, c: nat, cur: nat, event: Event): Kernel {
    match event
    case Yield => SchedYield(k, c)
    case Other => Return(k, c)
    case Fatal => Finish(EnvDestroy(k, c, cur), c)
    case Exofork(memory) =>
      var r := EnvAlloc(k, if cur < |k.envs| then k.envs[cur].id else 0, memory);
      Return(if r.e.Some? then SetStatus(r.k, r.e.value, NotRunnable) else r.k, c)
    case Destroy(envid) =>
      var e := EnvOf(k, c, envid, true);
      if e.None? then Return(k, c) else Finish(EnvDestroy(k, c, e.value), c)
    case SetRunnable(envid, runnable) =>
      var e := EnvOf(k, c, envid, true);
      Return(if e.None? then k else SetStatus(k, e.value, if runnable then Runnable else NotRunnable), c)
    case Receive =>
      SchedYield(SetRecving(SetStatus(k, cur, NotRunnable), cur, true), c)
    case Send(envid, delivered) =>
      var e := EnvOf(k, c, envid, false);
      if e.None? || !Receiving(k, e.value) || !delivered then Return(k, c)
      else Return(SetStatus(SetRecving(k, e.value, false), e.value, Runnable), c)
  }

  predicate Receiving(k: Kernel, e: nat) {
    e < |k.envs| && k.envs[e].recving
  }

  function SetRecving(k: Kernel, e: nat, recving: bool): Kernel {
    if e < |k.envs| then k.(envs := k.envs[e := k.envs[e].(recving := recving)]) else k
  }

  function Finish(d: Destroyed, c: nat): Kernel {
    if d.returned then Return(d.k, c) else d.k
  }

  /** One visit: reap a zombie, or handle the event; a halted processor's timer just yields. */
  function Visit(k: Kernel, c: nat, event: Event): Kernel {
    var cur := Current(k, c);
    if cur.None? then SchedYield(k, c)
    else if Has(k, cur.value, Dying) then SchedYield(SetCurrent(EnvFree(k, cur.value), c, None), c)
    else Dispatch(k, c, cur.value, event)
  }
}
