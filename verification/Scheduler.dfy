/** Round-robin fairness, and which environment an id still names. */
module Scheduler {
  import opened Options
  import opened EnvIds
  import opened Envs
  import opened EnvSafety

  // ----- bounded waiting -----

  /** Slots that a scan starting after slot `cur` looks at before slot `e`. */
  function Distance(cur: nat, e: nat): nat { (e - cur - 1) % 1024 }

  /** The scan reaches slot `e` at the turn that is its distance, and no sooner. */
  lemma TurnAtDistance(cur: nat, e: nat)
    requires cur < NENV && e < NENV
    ensures Turn(cur + 1, Distance(cur, e)) == e && Distance(cur, e) < NENV
  {
  }

  lemma DistanceOfTurn(cur: nat, t: nat)
    requires cur < NENV && t < NENV
    ensures Distance(cur, Turn(cur + 1, t)) == t && Turn(cur + 1, t) < NENV
  {
  }

  /** The scan stops at the runnable slot nearest in circular order. */
  lemma {:induction false} ScanNearest(k: Kernel, cur: nat, start: nat, t: nat, e: nat)
    requires |k.envs| == NENV && cur < NENV && start == cur + 1 && e < NENV && Has(k, e, Runnable) && t <= Distance(cur, e)
    requires forall u :: 0 <= u < t ==> !Has(k, Turn(start, u), Runnable)
    ensures var r := Scan(k, start, t);
      r.Some? && Has(k, r.value, Runnable) && r.value < NENV
      && forall e' :: 0 <= e' < NENV && Has(k, e', Runnable) ==> Distance(cur, r.value) <= Distance(cur, e')
    decreases NENV - t
  {
    hide Distance, Turn, Has;
    TurnAtDistance(cur, e);
    if Has(k, Turn(start, t), Runnable) {
      DistanceOfTurn(cur, t);
      forall e' | 0 <= e' < NENV && Has(k, e', Runnable) ensures t <= Distance(cur, e') {
        TurnAtDistance(cur, e');
      }
    } else {
      assert t != Distance(cur, e);
      ScanNearest(k, cur, start, t + 1, e);
    }
  }

  /** Processor `c` has a current environment, whose id carries its slot: so it is at every sched_yield of the
      invariant's runs in which the processor has not just freed its environment. */
  predicate HasCurrent(k: Kernel, c: nat) {
    && |k.envs| == NENV && c < |k.cur| && k.cur[c].Some? && k.cur[c].value < NENV
    && LowBits(k.envs[k.cur[c].value].id) == k.cur[c].value
  }

  lemma InvHasCurrent(k: Kernel, c: nat)
    requires Mid(k, c) && k.cur[c].Some?
    ensures HasCurrent(k, c)
  {
    assert On(k, c, k.cur[c].value);
    assert !Has(k, k.cur[c].value, Free);
  }

  /** `r` comes no later than `e` in the scan from `p`, and is nearer to it. */
  predicate NoLater(p: nat, r: nat, e: nat) {
    Distance(p, r) <= Distance(p, e) && (r != e ==> Distance(r, e) < Distance(p, e))
  }

  /** The environment that processor `c` runs after a yield. */
  lemma YieldPicks(k: Kernel, c: nat, e: nat)
    requires HasCurrent(k, c) && Has(k, e, Runnable)
    ensures var k' := SchedYield(k, c); var r := Current(k', c);
      r.Some? && Has(k, r.value, Runnable) && Has(k', r.value, Running) && NoLater(k.cur[c].value, r.value, e)
  {
    var p := k.cur[c].value;
    assert Start(k, c) == p + 1 && Current(k, c) == Some(p);
    hide Start, Distance, LowBits;
    ScanNearest(k, p, p + 1, 0, e);
    Closer(p, Scan(k, p + 1, 0).value, e);
  }

  lemma Closer(p: nat, r: nat, e: nat)
    requires p < NENV && r < NENV && e < NENV && Distance(p, r) <= Distance(p, e)
    ensures r != e ==> Distance(r, e) < Distance(p, e)
  {
  }

  /** `ks[i]` is the table at processor `c`'s i-th call of sched_yield. In between anything may happen, as long as the
      processor's environment is still the one that call chose. */
  ghost predicate Yields(ks: seq<Kernel>, c: nat) {
    && (forall i :: 0 <= i < |ks| ==> HasCurrent(ks[i], c))
    && (forall i :: 0 <= i < |ks| - 1 ==> ks[i + 1].cur[c] == Current(SchedYield(ks[i], c), c))
  }

  /** An environment that stays runnable is chosen within its circular distance plus one, so within NENV yields. */
  lemma {:induction false} BoundedWaiting(ks: seq<Kernel>, c: nat, e: nat)
    requires Yields(ks, c) && ks != [] && |ks| > Distance(ks[0].cur[c].value, e)
    requires forall i :: 0 <= i < |ks| ==> Has(ks[i], e, Runnable)
    ensures Distance(ks[0].cur[c].value, e) < NENV
    ensures exists i :: 0 <= i <= Distance(ks[0].cur[c].value, e) && Current(SchedYield(ks[i], c), c) == Some(e)
    decreases |ks|
  {
    YieldPicks(ks[0], c, e);
    if Current(SchedYield(ks[0], c), c) != Some(e) {
      var rest := ks[1..];
      assert ks[1].cur[c] == Current(SchedYield(ks[0], c), c);
      BoundedWaiting(rest, c, e);
      var i :| 0 <= i <= Distance(rest[0].cur[c].value, e) && Current(SchedYield(rest[i], c), c) == Some(e);
      assert rest[i] == ks[i + 1];
    }
  }

  // ----- the same, for a processor in a run of the whole kernel -----

  /** Visit `i` is a yield of processor `c`, whose environment is not a zombie. */
  predicate YieldsAt(ks: seq<Kernel>, calls: seq<Call>, c: nat, i: nat)
    requires |ks| == |calls| + 1 && i < |calls|
  {
    && calls[i] == Call(c, Yield)
    && Current(ks[i], c).Some? && !Has(ks[i], Current(ks[i], c).value, Dying)
  }

  /** Every visit of processor `c` is such a yield, or returns to the environment it came from. */
  ghost predicate YieldsOrReturns(ks: seq<Kernel>, calls: seq<Call>, c: nat)
    requires |ks| == |calls| + 1
  {
    forall i :: 0 <= i < |calls| && calls[i].cpu == c ==>
      YieldsAt(ks, calls, c, i) || Current(ks[i + 1], c) == Current(ks[i], c)
  }

  /** The tables at the yields of processor `c`. */
  function YieldsOf(ks: seq<Kernel>, calls: seq<Call>, c: nat): seq<Kernel>
    requires |ks| == |calls| + 1
  {
    if calls == [] then []
    else
      var n := |calls| - 1;
      YieldsOf(ks[..n + 1], calls[..n], c) + if YieldsAt(ks, calls, c, n) then [ks[n]] else []
  }

  /** Other processors' visits leave `c`'s curenv alone. */
  lemma OthersKeepCurrent(k: Kernel, c': nat, event: Event, c: nat)
    requires c' != c
    ensures Current(Visit(k, c', event), c) == Current(k, c)
  {
    var cur := Current(k, c');
    hide SchedYield, Dispatch;
    if cur.None? {
      OthersYield(k, c', c);
    } else if Has(k, cur.value, Dying) {
      OthersYield(SetCurrent(EnvFree(k, cur.value), c', None), c', c);
    } else {
      OthersDispatch(k, c', cur.value, event, c);
    }
  }

  lemma OthersYield(k: Kernel, c': nat, c: nat)
    requires c' != c
    ensures Current(SchedYield(k, c'), c) == Current(k, c) && Current(Return(k, c'), c) == Current(k, c)
  {
  }

  lemma OthersDestroy(k: Kernel, c': nat, e: nat, c: nat)
    requires c' != c
    ensures Current(Finish(EnvDestroy(k, c', e), c'), c) == Current(k, c)
  {
    hide SchedYield, Return;
    OthersYield(SetStatus(k, e, Dying), c', c);
    OthersYield(SetCurrent(EnvFree(k, e), c', None), c', c);
    OthersYield(EnvFree(k, e), c', c);
  }

  lemma OthersDispatch(k: Kernel, c': nat, cur: nat, event: Event, c: nat)
    requires c' != c
    ensures Current(Dispatch(k, c', cur, event), c) == Current(k, c)
  {
    hide SchedYield, Return, EnvDestroy, EnvOf;
    OthersYield(k, c', c);
    match event
    case Fatal => OthersDestroy(k, c', cur, c);
    case Exofork(memory) =>
      var r := EnvAlloc(k, if cur < |k.envs| then k.envs[cur].id else 0, memory);
      OthersYield(if r.e.Some? then SetStatus(r.k, r.e.value, NotRunnable) else r.k, c', c);
    case Destroy(envid) =>
      var e := EnvOf(k, c', envid, true);
      if e.Some? { OthersDestroy(k, c', e.value, c); }
    case SetRunnable(envid, runnable) =>
      var e := EnvOf(k, c', envid, true);
      if e.Some? { OthersYield(SetStatus(k, e.value, if runnable then Runnable else NotRunnable), c', c); }
    case Receive => OthersYield(SetRecving(SetStatus(k, cur, NotRunnable), cur, true), c', c);
    case Send(envid, _) =>
      var e := EnvOf(k, c', envid, false);
      if e.Some? { OthersYield(SetStatus(SetRecving(k, e.value, false), e.value, Runnable), c', c); }
    case _ =>
  }

  lemma YieldsMore(ys: seq<Kernel>, k: Kernel, c: nat)
    requires Yields(ys, c) && HasCurrent(k, c) && (ys != [] ==> k.cur[c] == Current(SchedYield(ys[|ys| - 1], c), c))
    ensures Yields(ys + [k], c)
  {
    hide SchedYield, HasCurrent;
  }

  /** The processor is on the environment that its last yield chose. */
  lemma {:induction false} YieldsInRun(ks: seq<Kernel>, calls: seq<Call>, c: nat)
    requires Run(ks, calls) && YieldsOrReturns(ks, calls, c)
    requires forall i :: 0 <= i < |calls| ==> Inv(ks[i])
    ensures var ys := YieldsOf(ks, calls, c);
      && Yields(ys, c)
      && (ys != [] ==> Current(ks[|calls|], c) == Current(SchedYield(ys[|ys| - 1], c), c))
  {
    hide Inv, SchedYield, Visit, HasCurrent;
    if calls != [] {
      var n := |calls| - 1;
      var before := YieldsOf(ks[..n + 1], calls[..n], c);
      EarlierYields(ks, calls, c);
      YieldsInRun(ks[..n + 1], calls[..n], c);
      assert ks[..n + 1][n] == ks[n];
      hide Yields, YieldsOf;
      LastVisit(ks, calls, c);
      if YieldsAt(ks, calls, c, n) {
        YieldingHasCurrent(ks[n], c);
        YieldsMore(before, ks[n], c);
      } else if calls[n].cpu != c {
        OthersKeepCurrent(ks[n], calls[n].cpu, calls[n].event, c);
      }
    }
  }

  lemma LastVisit(ks: seq<Kernel>, calls: seq<Call>, c: nat)
    requires |ks| == |calls| + 1 && calls != []
    ensures var n := |calls| - 1;
      YieldsOf(ks, calls, c) == YieldsOf(ks[..n + 1], calls[..n], c) + if YieldsAt(ks, calls, c, n) then [ks[n]] else []
  {
  }

  lemma EarlierYields(ks: seq<Kernel>, calls: seq<Call>, c: nat)
    requires Run(ks, calls) && YieldsOrReturns(ks, calls, c) && calls != []
    ensures var n := |calls| - 1; Run(ks[..n + 1], calls[..n]) && YieldsOrReturns(ks[..n + 1], calls[..n], c)
  {
    var n := |calls| - 1;
    hide Visit;
    forall i | 0 <= i < n && calls[i].cpu == c
      ensures YieldsAt(ks[..n + 1], calls[..n], c, i) || Current(ks[..n + 1][i + 1], c) == Current(ks[..n + 1][i], c)
    {
      assert YieldsAt(ks, calls, c, i) || Current(ks[i + 1], c) == Current(ks[i], c);
    }
  }

  lemma YieldingHasCurrent(k: Kernel, c: nat)
    requires Inv(k) && Current(k, c).Some? && !Has(k, Current(k, c).value, Dying)
    ensures HasCurrent(k, c) && k.cur[c] == Current(k, c) && Visit(k, c, Yield) == SchedYield(k, c)
  {
    assert On(k, c, Current(k, c).value);
    VisitStarts(k, c, Current(k, c).value);
    InvHasCurrent(k, c);
  }

  /** In any run of visits that do not reach into each other's environments: an environment that is runnable at every yield
      of a processor gets that processor by the time of its (distance + 1)-th yield. */
  lemma RunWaiting(ks: seq<Kernel>, calls: seq<Call>, c: nat, e: nat)
    requires Run(ks, calls) && Inv(ks[0]) && YieldsOrReturns(ks, calls, c)
    requires forall i :: 0 <= i < |calls| ==> !Reaches(ks[i], calls[i].cpu, calls[i].event)
    requires var ys := YieldsOf(ks, calls, c);
      && ys != [] && HasCurrent(ys[0], c) && |ys| > Distance(ys[0].cur[c].value, e)
      && forall i :: 0 <= i < |ys| ==> Has(ys[i], e, Runnable)
    ensures var ys := YieldsOf(ks, calls, c);
      && Distance(ys[0].cur[c].value, e) < NENV
      && exists i :: 0 <= i <= Distance(ys[0].cur[c].value, e) && Current(SchedYield(ys[i], c), c) == Some(e)
  {
    RunsKeep(ks, calls);
    NotStuckInOrder(ks, calls);
    hide Inv, SchedYield, Visit, Distance, HasCurrent, Yields;
    YieldsInRun(ks, calls, c);
    BoundedWaiting(YieldsOf(ks, calls, c), c, e);
  }

  lemma NotStuckInOrder(ks: seq<Kernel>, calls: seq<Call>)
    requires Run(ks, calls) && forall i :: 0 <= i < |ks| ==> Settled(ks[i])
    ensures forall i :: 0 <= i < |calls| ==> Inv(ks[i])
  {
    hide Inv, Visit;
  }

  /** Without a current environment the scan starts over at slot 0: the lowest runnable slot goes first, every time. */
  lemma NullRestarts(k: Kernel, c: nat, e: nat)
    requires |k.envs| == NENV && Current(k, c) == None && c < |k.cur| && Has(k, e, Runnable)
    requires forall e' :: 0 <= e' < e ==> !Has(k, e', Runnable)
    ensures Current(SchedYield(k, c), c) == Some(e)
  {
    ScanFromZero(k, 0, e);
  }

  lemma {:induction false} ScanFromZero(k: Kernel, t: nat, e: nat)
    requires |k.envs| == NENV && t <= e < NENV && Has(k, e, Runnable)
    requires forall e' :: 0 <= e' < e ==> !Has(k, e', Runnable)
    ensures Scan(k, 0, t) == Some(e)
    decreases NENV - t
  {
    assert Turn(0, t) == t;
    if t < e {
      ScanFromZero(k, t + 1, e);
    }
  }

  // ----- stale ids -----

  /** `counts[e]` is how often slot `e` has been allocated; its id is the last one issued there. */
  predicate Counted(k: Kernel, counts: seq<nat>) {
    |k.envs| == NENV && |counts| == NENV && forall e :: 0 <= e < NENV ==> k.envs[e].id == IdAfter(counts[e], e)
  }

  /** env_alloc counts up in the slot it takes, and nowhere else. */
  lemma AllocCounts(k: Kernel, counts: seq<nat>, parent: int, memory: bool)
    requires Counted(k, counts) && Shape(k)
    ensures var r := EnvAlloc(k, parent, memory);
      Counted(r.k, if r.e.Some? then counts[r.e.value := counts[r.e.value] + 1] else counts)
  {
  }

  /** No other part of a visit touches an id. */
  lemma YieldCounts(k: Kernel, counts: seq<nat>, c: nat)
    requires Counted(k, counts)
    ensures Counted(SchedYield(k, c), counts) && Counted(Return(k, c), counts)
  {
  }

  /** The allocation counts after a visit: only sys_exofork may add one. */
  function CountsAfter(k: Kernel, c: nat, event: Event, counts: seq<nat>): seq<nat>
    requires |counts| == NENV
  {
    var cur := Current(k, c);
    if event.Exofork? && event.memory && cur.Some? && !Has(k, cur.value, Dying) && k.free != [] && k.free[0] < NENV
    then counts[k.free[0] := counts[k.free[0]] + 1] else counts
  }

  lemma VisitCounts(k: Kernel, counts: seq<nat>, c: nat, event: Event)
    requires Counted(k, counts) && Shape(k)
    ensures Counted(Visit(k, c, event), CountsAfter(k, c, event, counts))
  {
    var cur := Current(k, c);
    if cur.None? {
      YieldCounts(k, counts, c);
    } else if Has(k, cur.value, Dying) {
      YieldCounts(SetCurrent(EnvFree(k, cur.value), c, None), counts, c);
    } else {
      DispatchCounts(k, counts, c, cur.value, event);
    }
  }

  lemma DestroyCounts(k: Kernel, counts: seq<nat>, c: nat, e: nat)
    requires Counted(k, counts)
    ensures Counted(Finish(EnvDestroy(k, c, e), c), counts)
  {
    hide SchedYield, Return;
    YieldCounts(SetStatus(k, e, Dying), counts, c);
    YieldCounts(SetCurrent(EnvFree(k, e), c, None), counts, c);
    YieldCounts(EnvFree(k, e), counts, c);
  }

  lemma DispatchCounts(k: Kernel, counts: seq<nat>, c: nat, cur: nat, event: Event)
    requires Counted(k, counts) && Shape(k) && Current(k, c) == Some(cur) && !Has(k, cur, Dying)
    ensures Counted(Dispatch(k, c, cur, event), CountsAfter(k, c, event, counts))
  {
    hide SchedYield, Return, EnvDestroy;
    match event
    case Yield => YieldCounts(k, counts, c);
    case Other => YieldCounts(k, counts, c);
    case Fatal => DestroyCounts(k, counts, c, cur);
    case Exofork(memory) =>
      AllocCounts(k, counts, k.envs[cur].id, memory);
      var r := EnvAlloc(k, k.envs[cur].id, memory);
      YieldCounts(if r.e.Some? then SetStatus(r.k, r.e.value, NotRunnable) else r.k, CountsAfter(k, c, event, counts), c);
    case Destroy(envid) =>
      var e := EnvOf(k, c, envid, true);
      YieldCounts(k, counts, c);
      DestroyCounts(k, counts, c, if e.Some? then e.value else 0);
    case SetRunnable(envid, runnable) =>
      var e := EnvOf(k, c, envid, true);
      YieldCounts(if e.None? then k else SetStatus(k, e.value, if runnable then Runnable else NotRunnable), counts, c);
    case Receive =>
      YieldCounts(SetRecving(SetStatus(k, cur, NotRunnable), cur, true), counts, c);
    case Send(envid, delivered) =>
      var e := EnvOf(k, c, envid, false);
      YieldCounts(k, counts, c);
      YieldCounts(if e.None? then k else SetStatus(SetRecving(k, e.value, false), e.value, Runnable), counts, c);
  }

  function CountsAt(ks: seq<Kernel>, calls: seq<Call>, counts: seq<nat>): (r: seq<nat>)
    requires |ks| == |calls| + 1 && |counts| == NENV
    ensures |r| == NENV
  {
    if calls == [] then counts
    else
      var n := |calls| - 1;
      CountsAfter(ks[n], calls[n].cpu, calls[n].event, CountsAt(ks[..n + 1], calls[..n], counts))
  }

  /** Every visit, reaching or not, stays within the table. */
  lemma YieldShape(k: Kernel, c: nat)
    requires Shape(k)
    ensures Shape(SchedYield(k, c)) && Shape(Return(k, c))
  {
  }

  lemma DestroyShape(k: Kernel, c: nat, e: nat)
    requires Shape(k) && e < NENV
    ensures Shape(Finish(EnvDestroy(k, c, e), c))
  {
    hide SchedYield, Return;
    YieldShape(SetStatus(k, e, Dying), c);
    YieldShape(SetCurrent(EnvFree(k, e), c, None), c);
    YieldShape(EnvFree(k, e), c);
  }

  lemma DispatchShape(k: Kernel, c: nat, cur: nat, event: Event)
    requires Shape(k) && cur < NENV
    ensures Shape(Dispatch(k, c, cur, event))
  {
    hide SchedYield, Return, EnvDestroy;
    YieldShape(k, c);
    match event
    case Fatal => DestroyShape(k, c, cur);
    case Exofork(memory) =>
      var r := EnvAlloc(k, k.envs[cur].id, memory);
      YieldShape(if r.e.Some? then SetStatus(r.k, r.e.value, NotRunnable) else r.k, c);
    case Destroy(envid) =>
      var e := EnvOf(k, c, envid, true);
      if e.Some? { DestroyShape(k, c, e.value); }
    case SetRunnable(envid, runnable) =>
      var e := EnvOf(k, c, envid, true);
      if e.Some? { YieldShape(SetStatus(k, e.value, if runnable then Runnable else NotRunnable), c); }
    case Receive => YieldShape(SetRecving(SetStatus(k, cur, NotRunnable), cur, true), c);
    case Send(envid, _) =>
      var e := EnvOf(k, c, envid, false);
      if e.Some? { YieldShape(SetStatus(SetRecving(k, e.value, false), e.value, Runnable), c); }
    case _ =>
  }

  lemma VisitShape(k: Kernel, c: nat, event: Event)
    requires Shape(k)
    ensures Shape(Visit(k, c, event))
  {
    var cur := Current(k, c);
    hide SchedYield, Dispatch;
    if cur.None? {
      YieldShape(k, c);
    } else if Has(k, cur.value, Dying) {
      YieldShape(SetCurrent(EnvFree(k, cur.value), c, None), c);
    } else {
      DispatchShape(k, c, cur.value, event);
    }
  }

  /** Over every run, in order or not, the table's ids are the ones the allocation counts say. */
  lemma {:induction false} RunCounts(ks: seq<Kernel>, calls: seq<Call>, counts: seq<nat>)
    requires Run(ks, calls) && Shape(ks[0]) && Counted(ks[0], counts)
    ensures Shape(ks[|calls|]) && Counted(ks[|calls|], CountsAt(ks, calls, counts))
  {
    if calls != [] {
      var n := |calls| - 1;
      hide Visit, Shape, Counted;
      assert ks[..n + 1][n] == ks[n];
      RunCounts(ks[..n + 1], calls[..n], counts);
      VisitShape(ks[n], calls[n].cpu, calls[n].event);
      VisitCounts(ks[n], CountsAt(ks[..n + 1], calls[..n], counts), calls[n].cpu, calls[n].event);
    }
  }

  /** The id that was the m-th issued for slot `s` is accepted, permissions aside, exactly while the slot is in use
      and its allocation count has come a whole number of turns further. Within fewer than 2^19 - 1 allocations that
      means: only for the environment it was issued to. */
  lemma AcceptedIff(k: Kernel, counts: seq<nat>, c: nat, m: nat, s: nat)
    requires Counted(k, counts) && s < NENV && 0 < m <= counts[s]
    ensures var id := IdAfter(m, s); var e := EnvOf(k, c, id, false);
      && (e.Some? ==> e.value == s)
      && (e.Some? <==> k.envs[s].status != Free && (counts[s] - m) % 524287 == 0)
      && (counts[s] - m < 524287 ==> (e.Some? <==> k.envs[s].status != Free && counts[s] == m))
  {
    IdWellFormed(m, s);
    ReissuedIff(counts[s], s, m, s);
  }
}
