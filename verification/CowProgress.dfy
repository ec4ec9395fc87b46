/** fork and pgfault get done: how many steps they still need, and that no other environment can hold them up. */
module CowProgress {
  import opened Mmu
  import opened Options
  import opened CowMemory
  import opened CowInvariant
  import opened CowRefinement
  import opened CowRuns

  /** The most steps of its own that an environment needs to be out of pgfault. */
  function FaultLeft(fault: Option<Fault>): nat {
    match fault
    case None => 0
    case Some(f) =>
      match f.stage
      case Entered => PGSIZE + 3
      case Copying(n) => if n <= PGSIZE then PGSIZE - n + 2 else 2
      case Moved => 1
  }

  /** And to be out of fork: up to two calls a page, the child's exception stack, and making the child runnable. */
  function ForkLeft(fork: Option<Fork>): nat {
    match fork
    case None => 0
    case Some(f) =>
      if f.next > STACK_PAGES then 1
      else 2 * (STACK_PAGES - f.next) + 2 - if f.half.Some? then 1 else 0
  }

  const FAULT_STEPS: nat := PGSIZE + 3
  const FORK_STEPS: nat := 2 * STACK_PAGES + 2

  function Left(s: Users, e: nat): nat {
    if e in s.ctl then FaultLeft(s.ctl[e].fault) + ForkLeft(s.ctl[e].fork) else 0
  }

  /** The steps inside pgfault and fork, past the fault and sys_exofork that begin them. */
  predicate Inside(op: Op) {
    op.TakeFrame? || op.CopyByte? || op.MoveFrame? || op.Leave? || op.Dup? || op.DupAgain? || op.ChildStack? || op.EndFork?
  }

  lemma IdleIff(s: Users, e: nat)
    requires Inv(s) && Runs(s, e)
    ensures Idle(s, e) <==> Left(s, e) == 0
  {
  }

  // ----- one step -----

  lemma ControlOf(s: Users, op: Op, e: nat)
    requires Enabled(s, op) && Standing(s, op.e) && e in s.ctl && op != Exit(e)
    ensures var s' := Apply(s, op);
      && e in s'.ctl
      && (op.e != e ==> s'.ctl[e].fault == s.ctl[e].fault && s'.ctl[e].fork == s.ctl[e].fork)
  {
    CallsAside(s);
    hide Has, Fresh, FaultState, Mapped, Copied;
  }

  lemma FaultSteps(s: Users, op: Op)
    requires Enabled(s, op) && Standing(s, op.e) && InHandler(op)
    ensures var s' := Apply(s, op);
      Left(s', op.e) == if op.Enter? then Left(s, op.e) + FAULT_STEPS else Left(s, op.e) - 1
  {
    hide Has, Fresh, ForkState;
  }

  lemma ForkSteps(s: Users, op: Op)
    requires Enabled(s, op) && Standing(s, op.e) && !InHandler(op) && !op.Exit?
    ensures var s' := Apply(s, op);
      && (Inside(op) ==> Left(s', op.e) < Left(s, op.e))
      && (op.StartFork? ==> Left(s', op.e) == Left(s, op.e) + FORK_STEPS)
      && (op.Write? ==> Left(s', op.e) == Left(s, op.e))
  {
    hide Has, Fresh, FaultState;
  }

  // ----- never stuck -----

  lemma {:induction false} Unused(fs: set<nat>) returns (f: nat)
    ensures forall x :: x in fs ==> x < f
    decreases |fs|
  {
    if fs == {} {
      f := 0;
    } else {
      var x :| x in fs;
      var g := Unused(fs - {x});
      assert forall y :: y in fs ==> y == x || y in fs - {x};
      f := if g > x then g else x + 1;
    }
  }

  lemma FreshFrame(s: Users) returns (f: nat)
    ensures Fresh(s, f)
  {
    var fs := set k | k in s.pt :: s.pt[k].frame;
    f := Unused(fs);
    assert forall k :: k in s.pt ==> s.pt[k].frame in fs;
  }

  lemma NextInFault(s: Users, e: nat) returns (op: Op)
    requires Standing(s, e) && s.ctl[e].fault.Some?
    ensures Enabled(s, op) && Inside(op) && op.e == e
  {
    var f := FreshFrame(s);
    hide Fresh, Has, ForkState, SamePrefix;
    op := match s.ctl[e].fault.value.stage
      case Entered => TakeFrame(e, f)
      case Copying(n) => if n < PGSIZE then CopyByte(e) else MoveFrame(e)
      case Moved => Leave(e);
  }

  lemma NextInFork(s: Users, e: nat) returns (op: Op)
    requires Standing(s, e) && Runs(s, e) && s.ctl[e].fork.Some? && s.ctl[e].fault.None?
    ensures Enabled(s, op) && Inside(op) && op.e == e
  {
    var f := FreshFrame(s);
    hide Fresh, Has, FaultState, HalfState;
    var fork := s.ctl[e].fork.value;
    op := if fork.half.Some? then DupAgain(e)
      else if fork.next < STACK_PAGES then Dup(e)
      else if fork.next == STACK_PAGES then ChildStack(e, f)
      else EndFork(e);
  }

  /** Inside pgfault or fork there is always a next step, whatever the others have done. */
  lemma NextStep(s: Users, e: nat) returns (op: Op)
    requires Inv(s) && Runs(s, e) && Left(s, e) > 0
    ensures Enabled(s, op) && Inside(op) && op.e == e && Standing(s, e)
  {
    assert Standing(s, e);
    hide Inv;
    if s.ctl[e].fault.Some? {
      op := NextInFault(s, e);
    } else {
      op := NextInFork(s, e);
    }
  }

  /** A run of `e` alone, from `s`, out of pgfault and fork. */
  ghost predicate Finished(s: Users, e: nat, ss: seq<Users>, ops: seq<Op>) {
    && Run(ss, ops) && ss[0] == s && |ops| <= Left(s, e) && Inv(ss[|ops|]) && Idle(ss[|ops|], e)
    && forall k :: 0 <= k < |ops| ==> Inside(ops[k]) && ops[k].e == e
  }

  /** Wherever the others stand, an environment that takes steps alone is out of pgfault and fork within the bound. */
  lemma {:induction false} Finishes(s: Users, e: nat)
    requires Inv(s) && Runs(s, e)
    ensures exists ss, ops :: Finished(s, e, ss, ops)
    decreases Left(s, e)
  {
    hide Inv, Apply, Enabled, Idle, Runs, Left, Standing, Inside;
    IdleIff(s, e);
    if Left(s, e) == 0 {
      assert Finished(s, e, [s], []);
    } else {
      var op := NextStep(s, e);
      var s' := Apply(s, op);
      StepKeeps(s, op);
      InsideStep(s, op);
      Finishes(s', e);
      var ss, ops :| Finished(s', e, ss, ops);
      FinishedLater(s, e, op, ss, ops);
    }
  }

  lemma InsideStep(s: Users, op: Op)
    requires Enabled(s, op) && Standing(s, op.e) && Runs(s, op.e) && Inside(op)
    ensures Runs(Apply(s, op), op.e) && Left(Apply(s, op), op.e) < Left(s, op.e)
  {
    if InHandler(op) {
      FaultSteps(s, op);
    } else {
      ForkSteps(s, op);
    }
    hide Has, Fresh, FaultState, Left;
  }

  lemma FinishedLater(s: Users, e: nat, op: Op, ss: seq<Users>, ops: seq<Op>)
    requires Enabled(s, op) && Inside(op) && op.e == e && Left(Apply(s, op), e) < Left(s, e) && Finished(Apply(s, op), e, ss, ops)
    ensures Finished(s, e, [s] + ss, [op] + ops)
  {
    hide Enabled, Apply, Inv, Idle, Left, Inside;
    var ss', ops' := [s] + ss, [op] + ops;
    forall k | 0 <= k < |ops'| ensures Enabled(ss'[k], ops'[k]) && ss'[k + 1] == Apply(ss'[k], ops'[k]) {
      if k > 0 {
        assert Enabled(ss[k - 1], ops[k - 1]) && ss[k] == Apply(ss[k - 1], ops[k - 1]);
      }
    }
    assert ss'[|ops'|] == ss[|ops|];
  }

  // ----- bounded work over every run -----

  /** How many of the steps are `e`'s own and inside pgfault and fork, begin a fault, begin a fork. */
  function Worked(ops: seq<Op>, e: nat): nat {
    if ops == [] then 0 else Worked(ops[..|ops| - 1], e) + if ops[|ops| - 1].e == e && Inside(ops[|ops| - 1]) then 1 else 0
  }

  function Faults(ops: seq<Op>, e: nat): nat {
    if ops == [] then 0 else Faults(ops[..|ops| - 1], e) + if ops[|ops| - 1].e == e && ops[|ops| - 1].Enter? then 1 else 0
  }

  function Forks(ops: seq<Op>, e: nat): nat {
    if ops == [] then 0 else Forks(ops[..|ops| - 1], e) + if ops[|ops| - 1].e == e && ops[|ops| - 1].StartFork? then 1 else 0
  }

  /** Over every run, with any number of other environments in any order, `e` takes at most 4099 steps for a fault and two
      a page for a fork: nobody else adds to its work. */
  lemma {:induction false} BoundedWork(ss: seq<Users>, ops: seq<Op>, e: nat)
    requires Run(ss, ops) && Inv(ss[0]) && e in ss[0].ctl && forall k :: 0 <= k < |ops| ==> ops[k] != Exit(e)
    ensures Inv(ss[|ops|]) && e in ss[|ops|].ctl
    ensures Left(ss[|ops|], e) + Worked(ops, e) <= Left(ss[0], e) + Faults(ops, e) * FAULT_STEPS + Forks(ops, e) * FORK_STEPS
  {
    if ops != [] {
      var n := |ops| - 1;
      Prefix(ss, ops);
      BoundedWork(ss[..n + 1], ops[..n], e);
      StepKeeps(ss[n], ops[n]);
      OneMore(ss[n], ops[n], e);
      hide Inv, Apply, Enabled, Left;
      Counted(ops, e);
    }
  }

  lemma OneMore(s: Users, op: Op, e: nat)
    requires Inv(s) && Enabled(s, op) && e in s.ctl && op != Exit(e)
    ensures var s' := Apply(s, op);
      && e in s'.ctl
      && Left(s', e) + (if op.e == e && Inside(op) then 1 else 0)
         <= Left(s, e) + (if op.e == e && op.Enter? then FAULT_STEPS else 0) + (if op.e == e && op.StartFork? then FORK_STEPS else 0)
  {
    OpStanding(s, op);
    ControlOf(s, op, e);
    if op.e == e {
      if InHandler(op) {
        FaultSteps(s, op);
      } else {
        ForkSteps(s, op);
      }
    }
    hide Inv, Apply, Enabled, Standing;
  }

  lemma Counted(ops: seq<Op>, e: nat)
    requires ops != []
    ensures var before, op := ops[..|ops| - 1], ops[|ops| - 1];
      && Worked(ops, e) == Worked(before, e) + (if op.e == e && Inside(op) then 1 else 0)
      && Faults(ops, e) * FAULT_STEPS == Faults(before, e) * FAULT_STEPS + (if op.e == e && op.Enter? then FAULT_STEPS else 0)
      && Forks(ops, e) * FORK_STEPS == Forks(before, e) * FORK_STEPS + (if op.e == e && op.StartFork? then FORK_STEPS else 0)
  {
  }

  // ----- which stores go through -----

  /** Outside pgfault, a store below the exception stack goes through, at once or by way of a fault, exactly where the
      environment's page in the copying machine is shared or writable; elsewhere it is refused. */
  lemma StoreGoesIff(s: Users, e: nat, pn: nat, off: nat, v: Byte)
    requires Inv(s) && Runs(s, e) && s.ctl[e].fault.None? && pn < STACK_PAGES
    ensures var view := ViewOf(s, Slot(e, pn));
      Enabled(s, Write(e, pn, off, v)) || Enabled(s, Enter(e, pn)) <==> view.Some? && (view.value.Shared? || view.value.writable)
    ensures !(Enabled(s, Write(e, pn, off, v)) && Enabled(s, Enter(e, pn)))
  {
    assert Standing(s, e) && Mapping(s) && SharedApart(s);
    hide Inv;
  }
}
