/** What holds of the environment table whenever the kernel lock is free, on any number of processors, and exactly
    which calls break it. */
module EnvSafety {
  import opened Options
  import opened EnvIds
  import opened Envs

  /** Environment `e` is current on processor `c`. */
  predicate On(k: Kernel, c: nat, e: nat) {
    c < |k.cur| && k.cur[c] == Some(e)
  }

  ghost predicate OneProcessorEach(k: Kernel) {
    forall c: nat, c': nat, e: nat :: On(k, c, e) && On(k, c', e) ==> c == c'
  }

  /** Running and dying environments are current somewhere. */
  ghost predicate Placed(k: Kernel) {
    forall e: nat :: Has(k, e, Running) || Has(k, e, Dying) ==> exists c: nat :: On(k, c, e)
  }

  /** Current environments are running or dying, on every processor but `c`. */
  ghost predicate CurrentRuns(k: Kernel, but: Option<nat>) {
    forall c: nat, e: nat :: On(k, c, e) && !(but.Some? && but.value == c) ==> Has(k, e, Running) || Has(k, e, Dying)
  }

  /** The free list holds exactly the free slots, once each. */
  ghost predicate FreeListExact(k: Kernel) {
    && (forall i, j :: 0 <= i < j < |k.free| ==> k.free[i] != k.free[j])
    && (forall e: nat :: e in k.free <==> Has(k, e, Free))
  }

  /** Environments carry their slot number in their ids. */
  ghost predicate Numbered(k: Kernel) {
    forall e: nat :: e < |k.envs| && k.envs[e].status != Free ==> k.envs[e].id > 0 && LowBits(k.envs[e].id) == e
  }

  /** The table between visits. */
  ghost predicate Inv(k: Kernel) {
    Shape(k) && OneProcessorEach(k) && Placed(k) && CurrentRuns(k, None) && FreeListExact(k) && Numbered(k)
  }

  /** The table in the middle of processor `c`'s visit: its own environment may have been put aside. */
  ghost predicate Mid(k: Kernel, c: nat) {
    && Shape(k) && OneProcessorEach(k) && Placed(k) && CurrentRuns(k, Some(c)) && FreeListExact(k) && Numbered(k)
    && c < |k.cur|
    && (forall e :: On(k, c, e) ==> !Has(k, e, Free) && !Has(k, e, Dying))
  }

  /** Who is current after env_run: the new environment here, nobody new elsewhere. */
  lemma RunCurrent(k: Kernel, c: nat, e: nat, c': nat, e': nat)
    requires OneProcessorEach(k) && CurrentRuns(k, Some(c)) && c < |k.cur| && e < |k.envs|
    requires Has(k, e, Runnable) || (On(k, c, e) && Has(k, e, Running))
    requires On(EnvRun(k, c, e), c', e')
    ensures if c' == c then e' == e else On(k, c', e') && e' != e
    ensures Has(EnvRun(k, c, e), e', Running) || Has(EnvRun(k, c, e), e', Dying)
  {
    assert c' != c ==> On(k, c', e') && !On(k, c, e') && (Has(k, e', Running) || Has(k, e', Dying));
    assert On(k, c', e) && c' != c ==> Has(k, e, Running);
  }

  lemma RunPlaced(k: Kernel, c: nat, e: nat)
    requires Placed(k) && OneProcessorEach(k) && c < |k.cur| && e < |k.envs|
    requires Has(k, e, Runnable) || (On(k, c, e) && Has(k, e, Running))
    requires forall e' :: On(k, c, e') ==> !Has(k, e', Free) && !Has(k, e', Dying)
    ensures Placed(EnvRun(k, c, e))
  {
    var k' := EnvRun(k, c, e);
    forall e': nat | Has(k', e', Running) || Has(k', e', Dying) ensures exists c': nat :: On(k', c', e') {
      if e' == e {
        assert On(k', c, e);
      } else {
        assert Has(k, e', Running) || Has(k, e', Dying);
        var c': nat :| On(k, c', e');
        assert On(k', c', e');
      }
    }
  }

  /** Neither the free list nor an id changes, and no slot becomes free or stops being so. */
  lemma RunLists(k: Kernel, c: nat, e: nat)
    requires Shape(k) && FreeListExact(k) && Numbered(k) && e < NENV && !Has(k, e, Free)
    ensures Shape(EnvRun(k, c, e)) && FreeListExact(EnvRun(k, c, e)) && Numbered(EnvRun(k, c, e))
  {
    assert forall e': nat :: Has(EnvRun(k, c, e), e', Free) <==> Has(k, e', Free);
  }

  /** The environment left behind is runnable again; all others but the new one are as they were. */
  lemma RunStatuses(k: Kernel, c: nat, e: nat)
    requires c < |k.cur| && e < |k.envs|
    ensures Has(EnvRun(k, c, e), e, Running)
    ensures forall e' :: e' != e && On(k, c, e') && Has(k, e', Running) ==> Has(EnvRun(k, c, e), e', Runnable)
    ensures forall e', status :: e' != e && !On(k, c, e') ==> (Has(EnvRun(k, c, e), e', status) <==> Has(k, e', status))
  {
  }

  lemma RunKeeps(k: Kernel, c: nat, e: nat)
    requires Mid(k, c) && e < NENV && (Has(k, e, Runnable) || (On(k, c, e) && Has(k, e, Running)))
    ensures Inv(EnvRun(k, c, e)) && On(EnvRun(k, c, e), c, e) && Has(EnvRun(k, c, e), e, Running)
    ensures forall e' :: e' != e && On(k, c, e') && Has(k, e', Running) ==> Has(EnvRun(k, c, e), e', Runnable)
    ensures forall e', status :: e' != e && !On(k, c, e') ==> (Has(EnvRun(k, c, e), e', status) <==> Has(k, e', status))
  {
    RunStatuses(k, c, e);
    RunLists(k, c, e);
    assert e < |k.envs|;
    hide Numbered, FreeListExact, Shape;
    RunPlaced(k, c, e);
    hide Placed;
    var k' := EnvRun(k, c, e);
    assert On(k', c, e);
    hide EnvRun;
    forall c': nat, e': nat | On(k', c', e')
      ensures (if c' == c then e' == e else On(k, c', e') && e' != e) && (Has(k', e', Running) || Has(k', e', Dying))
    {
      RunCurrent(k, c, e, c', e');
    }
  }

  lemma HaltKeeps(k: Kernel, c: nat)
    requires Mid(k, c) && forall e :: On(k, c, e) ==> !Has(k, e, Running)
    ensures SchedHalt(k, c).stuck || Inv(SchedHalt(k, c))
  {
    var k' := SetCurrent(k, c, None);
    forall e: nat | Has(k', e, Running) || Has(k', e, Dying) ensures exists c': nat :: On(k', c', e) {
      assert Has(k, e, Running) || Has(k, e, Dying);
      var c': nat :| On(k, c', e);
      assert On(k', c', e);
    }
    forall c': nat, e: nat | On(k', c', e) ensures On(k, c', e) && c' != c {
    }
  }

  lemma YieldKeeps(k: Kernel, c: nat)
    requires Mid(k, c)
    ensures SchedYield(k, c).stuck || Inv(SchedYield(k, c))
  {
    var next := Scan(k, Start(k, c), 0);
    var cur := Current(k, c);
    if next.Some? {
      RunKeeps(k, c, next.value);
    } else if cur.Some? && Has(k, cur.value, Running) {
      RunKeeps(k, c, cur.value);
    } else {
      HaltKeeps(k, c);
    }
  }

  lemma ReturnKeeps(k: Kernel, c: nat)
    requires Mid(k, c)
    ensures Return(k, c).stuck || Inv(Return(k, c))
  {
    var cur := Current(k, c);
    if cur.Some? && Has(k, cur.value, Running) {
      RunKeeps(k, c, cur.value);
    } else {
      YieldKeeps(k, c);
    }
  }

  // ----- what may happen during a visit -----

  /** A processor that traps finds the table in the middle state, unless its environment is a zombie. */
  lemma VisitStarts(k: Kernel, c: nat, e: nat)
    requires Inv(k) && On(k, c, e) && !Has(k, e, Dying)
    ensures Mid(k, c) && Has(k, e, Running)
  {
    assert Has(k, e, Running);
  }

  /** Freeing an environment that is not current elsewhere, and is no longer current here. */
  lemma FreeKeeps(k: Kernel, c: nat, e: nat)
    requires Inv(k) && c < |k.cur| && e < NENV && !Has(k, e, Free)
    requires forall c' :: On(k, c', e) ==> c' == c
    requires forall e' :: On(k, c, e') && Has(k, e', Dying) ==> e' == e
    ensures var k' := EnvFree(k, e); Mid(if On(k, c, e) then SetCurrent(k', c, None) else k', c)
  {
    var k' := if On(k, c, e) then SetCurrent(EnvFree(k, e), c, None) else EnvFree(k, e);
    assert e !in k.free;
    forall c': nat, e': nat | On(k', c', e') ensures On(k, c', e') && e' != e {
      assert On(k, c', e');
    }
    forall e': nat | Has(k', e', Running) || Has(k', e', Dying) ensures exists c': nat :: On(k', c', e') {
      assert Has(k, e', Running) || Has(k, e', Dying);
      var c': nat :| On(k, c', e');
      assert On(k', c', e');
    }
    forall e': nat ensures e' in k'.free <==> Has(k', e', Free) {
      assert e' != e ==> (e' in k.free <==> Has(k, e', Free));
    }
  }

  /** The environment is current on another processor than `c`: in the invariant, exactly the running and dying
      ones that are not current here. */
  predicate Elsewhere(k: Kernel, c: nat, e: nat) {
    !On(k, c, e) && (Has(k, e, Running) || Has(k, e, Dying))
  }

  /** Rewriting one status: not the last one free, and no other processor's environment. */
  predicate MayBecome(k: Kernel, c: nat, e: nat, status: Status) {
    && e < NENV && !Has(k, e, Free)
    && match status
       case Dying => Elsewhere(k, c, e)
       case Runnable => !Elsewhere(k, c, e)
       case NotRunnable => !Elsewhere(k, c, e)
       case _ => false
  }

  lemma StatusKeeps(k: Kernel, c: nat, e: nat, status: Status)
    requires Mid(k, c) && MayBecome(k, c, e, status)
    ensures Mid(SetStatus(k, e, status), c)
  {
    var k' := SetStatus(k, e, status);
    forall c': nat, e': nat | On(k', c', e') ensures On(k, c', e') && (c' != c ==> Has(k', e', Running) || Has(k', e', Dying)) {
      assert On(k, c', e');
      assert On(k, c, e') && c' != c ==> false;
    }
    forall e': nat | Has(k', e', Running) || Has(k', e', Dying) ensures exists c': nat :: On(k', c', e') {
      assert Has(k, e', Running) || Has(k, e', Dying);
      var c': nat :| On(k, c', e');
      assert On(k', c', e');
    }
    forall e': nat ensures e' in k'.free <==> Has(k', e', Free) {
      assert e' in k.free <==> Has(k, e', Free);
    }
  }

  /** env_alloc, with or without sys_exofork's change of status. */
  lemma AllocKeeps(k: Kernel, c: nat, parent: int, memory: bool)
    requires Mid(k, c)
    ensures var r := EnvAlloc(k, parent, memory);
      && (r.code == Ok <==> r.e.Some?) && (r.e.None? ==> r.k == k)
      && (r.code == NoFreeEnv <==> forall e: nat :: !Has(k, e, Free))
      && (r.code == NoMem <==> !memory && exists e: nat :: Has(k, e, Free))
      && (r.e.Some? ==> Has(k, r.e.value, Free) && Has(r.k, r.e.value, Runnable) && Mid(r.k, c))
  {
    var r := EnvAlloc(k, parent, memory);
    assert k.free != [] ==> k.free[0] in k.free;
    assert forall e: nat :: e in k.free <==> Has(k, e, Free);
    if r.e.Some? {
      var e := r.e.value;
      assert e in k.free;
      NewIdNumbered(k.envs[e].id, e);
      forall c': nat, e': nat | On(r.k, c', e') ensures On(k, c', e') && e' != e {
        assert On(k, c', e');
      }
      forall e': nat | Has(r.k, e', Running) || Has(r.k, e', Dying) ensures exists c': nat :: On(r.k, c', e') {
        assert Has(k, e', Running) || Has(k, e', Dying);
        var c': nat :| On(k, c', e');
        assert On(r.k, c', e');
      }
      forall e': nat ensures e' in r.k.free <==> Has(r.k, e', Free) {
        assert e' in k.free <==> Has(k, e', Free);
        assert e' in k.free <==> e' == k.free[0] || e' in k.free[1..];
      }
    }
  }

  lemma NewIdNumbered(id: int, slot: nat)
    requires slot < NENV
    ensures NextId(id, slot) > 0 && LowBits(NextId(id, slot)) == slot
  {
  }

  lemma RecvingKeeps(k: Kernel, c: nat, e: nat, recving: bool)
    requires Mid(k, c)
    ensures Mid(SetRecving(k, e, recving), c)
  {
    var k' := SetRecving(k, e, recving);
    assert forall e': nat, s :: Has(k', e', s) == Has(k, e', s);
    assert forall c': nat, e': nat :: On(k', c', e') == On(k, c', e');
  }

  // ----- exactly the safe visits -----

  /** The visits that change an environment another processor is on: destroying a zombie again, which env_destroy
      does not guard against, and making someone else's current environment runnable or not runnable. */
  predicate Reaches(k: Kernel, c: nat, event: Event) {
    var cur := Current(k, c);
    cur.Some? && !Has(k, cur.value, Dying) &&
    match event
    case Destroy(envid) =>
      var e := EnvOf(k, c, envid, true);
      e.Some? && Has(k, e.value, Dying)
    case SetRunnable(envid, _) =>
      var e := EnvOf(k, c, envid, true);
      e.Some? && Elsewhere(k, c, e.value)
    case Send(envid, delivered) =>
      var e := EnvOf(k, c, envid, false);
      delivered && e.Some? && Receiving(k, e.value) && Elsewhere(k, c, e.value)
    case _ => false
  }

  ghost predicate Settled(k: Kernel) {
    k.stuck || Inv(k)
  }

  lemma OwnDestroyKeeps(k: Kernel, c: nat, e: nat)
    requires Inv(k) && On(k, c, e)
    ensures Settled(SchedYield(SetCurrent(EnvFree(k, e), c, None), c))
  {
    assert Has(k, e, Running) || Has(k, e, Dying);
    FreeKeeps(k, c, e);
    hide Mid, Inv, SchedYield;
    YieldKeeps(SetCurrent(EnvFree(k, e), c, None), c);
  }

  /** env_destroy from processor `c`, which runs an environment of its own. */
  lemma DestroyKeeps(k: Kernel, c: nat, own: nat, e: nat)
    requires Inv(k) && On(k, c, own) && Has(k, own, Running) && e < NENV && !Has(k, e, Free) && !Has(k, e, Dying)
    ensures Settled(Finish(EnvDestroy(k, c, e), c))
  {
    assert Has(k, own, Running);
    if e == own {
      OwnDestroyKeeps(k, c, e);
    } else if Has(k, e, Running) {
      StatusKeeps(k, c, e, Dying);
      ReturnKeeps(SetStatus(k, e, Dying), c);
    } else {
      FreeKeeps(k, c, e);
      ReturnKeeps(EnvFree(k, e), c);
    }
  }

  lemma EnvOfExists(k: Kernel, c: nat, envid: int, checkPerm: bool)
    requires Inv(k) && EnvOf(k, c, envid, checkPerm).Some?
    ensures var e := EnvOf(k, c, envid, checkPerm).value; e < NENV && !Has(k, e, Free)
  {
    if envid == 0 {
      var e := Current(k, c).value;
      assert On(k, c, e);
      assert Has(k, e, Running) || Has(k, e, Dying);
    }
  }

  lemma OwnSlot(k: Kernel, c: nat, own: nat)
    requires Mid(k, c) && On(k, c, own)
    ensures own < NENV && own < |k.envs| && !Has(k, own, Free) && MayBecome(k, c, own, NotRunnable)
  {
  }

  lemma ReceiveIs(k: Kernel, c: nat, own: nat)
    ensures Dispatch(k, c, own, Receive) == SchedYield(SetRecving(SetStatus(k, own, NotRunnable), own, true), c)
  {
  }

  lemma ExoforkIs(k: Kernel, c: nat, own: nat, memory: bool)
    requires own < |k.envs|
    ensures var r := EnvAlloc(k, k.envs[own].id, memory);
      Dispatch(k, c, own, Exofork(memory)) == Return(if r.e.Some? then SetStatus(r.k, r.e.value, NotRunnable) else r.k, c)
  {
  }

  lemma AllocInTable(k: Kernel, parent: int, memory: bool)
    ensures var r := EnvAlloc(k, parent, memory); r.e.Some? && Has(r.k, r.e.value, Runnable) ==> r.e.value < |k.envs| == |r.k.envs|
  {
  }

  lemma ExoforkKeeps(k: Kernel, c: nat, own: nat, memory: bool)
    requires own < |k.envs| && Mid(k, c) && On(k, c, own)
    ensures Settled(Dispatch(k, c, own, Exofork(memory)))
  {
    var r := EnvAlloc(k, k.envs[own].id, memory);
    hide Inv, Mid, SchedYield, SetStatus, EnvAlloc, Return, Dispatch;
    ExoforkIs(k, c, own, memory);
    AllocKeeps(k, c, k.envs[own].id, memory);
    if r.e.Some? {
      AllocInTable(k, k.envs[own].id, memory);
      StatusKeeps(r.k, c, r.e.value, NotRunnable);
      ReturnKeeps(SetStatus(r.k, r.e.value, NotRunnable), c);
    } else {
      ReturnKeeps(k, c);
    }
  }

  lemma SetRunnableKeeps(k: Kernel, c: nat, own: nat, envid: int, runnable: bool)
    requires Inv(k) && Mid(k, c) && On(k, c, own) && Has(k, own, Running) && !Reaches(k, c, SetRunnable(envid, runnable))
    ensures Settled(Dispatch(k, c, own, SetRunnable(envid, runnable)))
  {
    var e := EnvOf(k, c, envid, true);
    if e.Some? {
      EnvOfExists(k, c, envid, true);
      var status := if runnable then Runnable else NotRunnable;
      StatusKeeps(k, c, e.value, status);
      ReturnKeeps(SetStatus(k, e.value, status), c);
    } else {
      ReturnKeeps(k, c);
    }
  }

  lemma SendKeeps(k: Kernel, c: nat, own: nat, envid: int, delivered: bool)
    requires Inv(k) && Mid(k, c) && On(k, c, own) && Has(k, own, Running) && !Reaches(k, c, Send(envid, delivered))
    ensures Settled(Dispatch(k, c, own, Send(envid, delivered)))
  {
    var e := EnvOf(k, c, envid, false);
    if e.Some? && Receiving(k, e.value) && delivered {
      EnvOfExists(k, c, envid, false);
      RecvingKeeps(k, c, e.value, false);
      var k1 := SetRecving(k, e.value, false);
      assert MayBecome(k1, c, e.value, Runnable);
      StatusKeeps(k1, c, e.value, Runnable);
      ReturnKeeps(SetStatus(k1, e.value, Runnable), c);
    } else {
      ReturnKeeps(k, c);
    }
  }

  lemma ReceiveKeeps(k: Kernel, c: nat, own: nat)
    requires Mid(k, c) && On(k, c, own) && Has(k, own, Running)
    ensures Settled(Dispatch(k, c, own, Receive))
  {
    hide Mid, Inv, SchedYield, SetStatus, SetRecving, Dispatch, Has;
    OwnSlot(k, c, own);
    ReceiveIs(k, c, own);
    StatusKeeps(k, c, own, NotRunnable);
    RecvingKeeps(SetStatus(k, own, NotRunnable), c, own, true);
    YieldKeeps(SetRecving(SetStatus(k, own, NotRunnable), own, true), c);
  }

  lemma DispatchKeeps(k: Kernel, c: nat, own: nat, event: Event)
    requires Inv(k) && On(k, c, own) && Has(k, own, Running) && !Reaches(k, c, event)
    ensures Settled(Dispatch(k, c, own, event))
  {
    VisitStarts(k, c, own);
    assert own < NENV == |k.envs| && Current(k, c) == Some(own) && !Has(k, own, Free);
    hide Mid, Inv, SchedYield, Return, SetStatus, SetRecving, EnvAlloc, EnvOf, EnvDestroy;
    match event
    case Yield => YieldKeeps(k, c);
    case Other => ReturnKeeps(k, c);
    case Fatal => DestroyKeeps(k, c, own, own);
    case Exofork(memory) => ExoforkKeeps(k, c, own, memory);
    case Destroy(envid) =>
      if EnvOf(k, c, envid, true).Some? {
        EnvOfExists(k, c, envid, true);
        DestroyKeeps(k, c, own, EnvOf(k, c, envid, true).value);
      } else {
        ReturnKeeps(k, c);
      }
    case SetRunnable(envid, runnable) => SetRunnableKeeps(k, c, own, envid, runnable);
    case Receive => ReceiveKeeps(k, c, own);
    case Send(envid, delivered) => SendKeeps(k, c, own, envid, delivered);
  }

  /** Another processor's environment that is neither running nor dying, while this one's runs on. */
  lemma Broken(k: Kernel, c: nat, own: nat, c': nat, e: nat)
    requires On(k, c, own) && Has(k, own, Running) && c' != c && own != e
    requires On(k, c', e) && !Has(k, e, Running) && !Has(k, e, Dying)
    ensures !Settled(Return(k, c)) || k.stuck
  {
    assert On(Return(k, c), c', e);
  }

  lemma ReachBreaks(k: Kernel, c: nat, own: nat, event: Event)
    requires Inv(k) && !k.stuck && On(k, c, own) && Has(k, own, Running) && Reaches(k, c, event)
    ensures !Settled(Dispatch(k, c, own, event))
  {
    var e := (match event
      case Destroy(envid) => EnvOf(k, c, envid, true).value
      case SetRunnable(envid, _) => EnvOf(k, c, envid, true).value
      case Send(envid, _) => EnvOf(k, c, envid, false).value
      case _ => 0);
    assert Has(k, e, Running) || Has(k, e, Dying);
    var c': nat :| On(k, c', e);
    assert c' != c && e != own && On(k, c', e);
    var k' := (match event
      case Destroy(_) => EnvFree(k, e)
      case SetRunnable(_, runnable) => SetStatus(k, e, if runnable then Runnable else NotRunnable)
      case Send(_, _) => SetStatus(SetRecving(k, e, false), e, Runnable)
      case _ => k);
    assert On(k', c, own) && On(k', c', e) && Has(k', own, Running);
    Broken(k', c, own, c', e);
  }

  /** Every visit to the kernel, by any processor for any reason, leaves the table in order (or the kernel in the
      monitor) exactly if it does not reach into an environment that another processor is on. */
  lemma VisitKeepsIff(k: Kernel, c: nat, event: Event)
    requires Inv(k) && !k.stuck && c < |k.cur|
    ensures Settled(Visit(k, c, event)) <==> !Reaches(k, c, event)
  {
    var cur := Current(k, c);
    if cur.None? {
      assert Mid(k, c);
      YieldKeeps(k, c);
    } else {
      assert On(k, c, cur.value);
      assert Has(k, cur.value, Running) || Has(k, cur.value, Dying);
      if Has(k, cur.value, Dying) {
        OwnDestroyKeeps(k, c, cur.value);
      } else if Reaches(k, c, event) {
        ReachBreaks(k, c, cur.value, event);
      } else {
        DispatchKeeps(k, c, cur.value, event);
      }
    }
  }

  /** A visit of processor `c`. */
  datatype Call = Call(cpu: nat, event: Event)

  ghost predicate Run(ks: seq<Kernel>, calls: seq<Call>) {
    && |ks| == |calls| + 1
    && forall i :: 0 <= i < |calls| ==>
         !ks[i].stuck && calls[i].cpu < |ks[i].cur| && ks[i + 1] == Visit(ks[i], calls[i].cpu, calls[i].event)
  }

  /** Over every run of visits, of any number of processors in any order, that do not reach into each other's
      environments: the table is in order whenever the lock is free. */
  lemma {:induction false} RunsKeep(ks: seq<Kernel>, calls: seq<Call>)
    requires Run(ks, calls) && Inv(ks[0])
    requires forall i :: 0 <= i < |calls| ==> !Reaches(ks[i], calls[i].cpu, calls[i].event)
    ensures forall i :: 0 <= i < |ks| ==> Settled(ks[i])
  {
    hide Inv, Visit, Reaches;
    if calls != [] {
      var n := |calls| - 1;
      RunsKeep(ks[..n + 1], calls[..n]);
      forall i | 0 <= i <= n ensures Settled(ks[i]) {
        assert ks[..n + 1][i] == ks[i];
      }
      VisitKeepsIff(ks[n], calls[n].cpu, calls[n].event);
    }
  }

  lemma InitKeeps(cpus: nat)
    ensures Inv(Init(cpus)) && Init(cpus).free[0] == 0
  {
    var k := Init(cpus);
    assert forall e: nat, s :: Has(k, e, s) ==> s == Free;
    forall e: nat ensures e in k.free <==> Has(k, e, Free) {
      assert e < NENV ==> k.free[e] == e;
    }
  }

  /** env_create at boot, before any processor runs an environment. */
  lemma CreateKeeps(k: Kernel, memory: bool)
    requires Inv(k) && |k.cur| > 0 && forall c :: Current(k, c) == None
    ensures var k' := EnvAlloc(k, 0, memory).k;
      Inv(k') && |k'.cur| == |k.cur| && k'.stuck == k.stuck && forall c :: Current(k', c) == None
  {
    assert forall c: nat, e: nat :: On(k, c, e) ==> Current(k, c) == Some(e);
    assert Mid(k, 0);
    AllocKeeps(k, 0, 0, memory);
    var k' := EnvAlloc(k, 0, memory).k;
    assert forall c: nat, e: nat :: On(k', c, e) ==> On(k, c, e);
    forall c ensures Current(k', c) == None {
      assert Current(k, c) == None;
    }
  }

  /** The table after env_init and `n` calls of env_create, which panics when env_alloc fails. */
  function Booted(cpus: nat, n: nat): Kernel {
    if n == 0 then Init(cpus) else EnvAlloc(Booted(cpus, n - 1), 0, true).k
  }

  lemma {:induction false} BootedInOrder(cpus: nat, n: nat)
    requires cpus > 0 && n <= NENV
    ensures var k := Booted(cpus, n);
      Inv(k) && |k.free| == NENV - n && |k.cur| == cpus && !k.stuck && forall c :: Current(k, c) == None
  {
    if n == 0 {
      InitKeeps(cpus);
    } else {
      BootedInOrder(cpus, n - 1);
      hide Inv;
      CreateKeeps(Booted(cpus, n - 1), true);
    }
  }

  /** From env_init on: whatever was created at boot, the table is in order over every run of visits, by any number of
      processors, that do not reach into each other's environments; and the first that does breaks it. */
  lemma RunsFromBoot(cpus: nat, created: nat, ks: seq<Kernel>, calls: seq<Call>)
    requires cpus > 0 && created <= NENV && Run(ks, calls) && ks[0] == Booted(cpus, created)
    requires forall i :: 0 <= i < |calls| - 1 ==> !Reaches(ks[i], calls[i].cpu, calls[i].event)
    ensures forall i :: 0 <= i < |calls| ==> Settled(ks[i])
    ensures calls != [] ==>
      var n := |calls| - 1; Settled(ks[n + 1]) <==> !Reaches(ks[n], calls[n].cpu, calls[n].event)
  {
    hide Booted, Inv, Visit, Reaches;
    BootedInOrder(cpus, created);
    if calls != [] {
      var n := |calls| - 1;
      RunsKeep(ks[..n + 1], calls[..n]);
      forall i | 0 <= i < |calls| ensures Settled(ks[i]) {
        assert ks[..n + 1][i] == ks[i];
      }
      VisitKeepsIff(ks[n], calls[n].cpu, calls[n].event);
    }
  }
}
