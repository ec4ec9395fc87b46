/** lib/fork.c run without interruption: pgfault, duppage and fork as they change the page tables in place. */
module UserFork {
  import opened Mmu
  import opened Options
  import opened CowMemory
  import opened CowInvariant
  import opened CowRefinement
  import opened CowRuns
  import opened CowHandler

  /** A page that the model step leaves alone looks the same after the step. */
  lemma ViewKept(s: Users, op: Op, k: Slot)
    requires Inv(s) && Enabled(s, op) && Leaves(Meaning(s, op), k)
    ensures ViewOf(Apply(s, op), k) == ViewOf(s, k)
  {
    hide *;
    ModelOfAgrees(s);
    StepRefines(s, ModelOf(s), op);
    BothViews(s, Apply(s, op), ModelOf(s), Perform(ModelOf(s), Meaning(s, op)), k);
    LeavesLook(ModelOf(s), Meaning(s, op), k);
  }

  lemma HandlerKeepsViews(s: Users, op: Op)
    requires Inv(s) && InHandler(op) && Enabled(s, op)
    ensures forall k :: ViewOf(Apply(s, op), k) == ViewOf(s, k)
  {
    forall k ensures ViewOf(Apply(s, op), k) == ViewOf(s, k) {
      ViewKept(s, op, k);
    }
  }

  class Library {
    var users: Users

    constructor (users: Users)
      ensures this.users == users
    {
      this.users := users;
    }

    /** pgfault for a store by `e` to its copy-on-write page `pn`; `f` is the frame sys_page_alloc finds. */
    method Pgfault(e: nat, pn: nat, f: nat)
      requires Inv(users) && Enabled(users, Enter(e, pn)) && Fresh(users, f)
      modifies this
      ensures Inv(users)
      ensures old(CanFault(users, e, pn, f)) && users == AfterFault(old(users), e, pn, f)
      ensures forall k :: ViewOf(users, k) == old(ViewOf(users, k))
    {
      ghost var s := users;
      TempUnmapped(s, e);
      FaultBegins(s, e, pn, f);
      Step(Enter(e, pn));
      Step(TakeFrame(e, f));
      var done := 0;
      while done < PGSIZE
        invariant done <= PGSIZE && Inv(users) && CanFault(s, e, pn, f) && users == MidCopy(s, e, pn, f, done)
        invariant forall k :: ViewOf(users, k) == ViewOf(s, k)
      {
        FaultCopies(s, e, pn, f, done);
        hide *;
        Step(CopyByte(e));
        done := done + 1;
      }
      FaultEnds(s, e, pn, f);
      Step(MoveFrame(e));
      Step(Leave(e));
    }

    /** One system call or copied byte of pgfault. */
    method Step(op: Op)
      requires Inv(users) && InHandler(op) && Enabled(users, op)
      modifies this
      ensures Inv(users) && users == Apply(old(users), op)
      ensures forall k :: ViewOf(users, k) == old(ViewOf(users, k))
    {
      StepKeeps(users, op);
      HandlerKeepsViews(users, op);
      users := Apply(users, op);
    }

    /** duppage for page `pn` of `e`, whose loop in fork stands at `pn`. */
    method Duppage(e: nat, child: nat, pn: nat)
      requires InLoop(users, e, child, pn) && pn < STACK_PAGES && Slot(e, pn) in users.pt && User(users.pt[Slot(e, pn)])
      modifies this
      ensures users == Dupped(old(users), e, child, pn)
    {
      var mine, theirs := Slot(e, pn), Slot(child, pn);
      ghost var s := users;
      var pte := users.pt[mine];
      if Share(pte) {
        users := Mapped(users, mine, theirs, PTE_SYSCALL);
      } else if Writable(pte) || Cow(pte) {
        users := Mapped(users, mine, theirs, COW_PERM);
        users := SetFork(users, e, Some(CowMemory.Fork(child, pn, Some(Writable(pte)))));
        users := Mapped(users, mine, mine, COW_PERM);
      } else {
        users := Mapped(users, mine, theirs, READ_PERM);
      }
      users := SetFork(users, e, Some(CowMemory.Fork(child, pn + 1, None)));
      assert users.ctl == Dupped(s, e, child, pn).ctl;
    }

    /** fork by `e`, whose child gets id `child`, with frame `f` for its exception stack. */
    method Fork(e: nat, child: nat, f: nat)
      requires Inv(users) && Enabled(users, StartFork(e, child)) && Fresh(users, f)
      modifies this
      ensures Inv(users) && Forked(old(users), users, e, child)
    {
      ghost var s := users;
      ForkStarts(s, e, child, f);
      users := Apply(users, StartFork(e, child));
      hide *;
      var addr := 0;
      while addr < STACK_PAGES
        invariant addr <= STACK_PAGES && Inv(users) && InLoop(users, e, child, addr) && Fresh(users, f)
        invariant CopiedSoFar(s, users, e, child)
      {
        DupSteps(s, users, e, child, addr, f);
        if Slot(e, addr) in users.pt && User(users.pt[Slot(e, addr)]) {
          Duppage(e, child, addr);
        } else {
          SkipIsDup(users, e, child, addr);
          users := SetFork(users, e, Some(CowMemory.Fork(child, addr + 1, None)));
        }
        addr := addr + 1;
      }
      ForkEnds(s, users, e, child, f);
      users := Apply(users, ChildStack(e, f));
      users := Apply(users, EndFork(e));
    }
  }

  lemma SkipIsDup(s: Users, e: nat, child: nat, pn: nat)
    requires InLoop(s, e, child, pn) && pn < STACK_PAGES && !(Slot(e, pn) in s.pt && User(s.pt[Slot(e, pn)]))
    ensures SetFork(s, e, Some(CowMemory.Fork(child, pn + 1, None))) == Dupped(s, e, child, pn)
  {
  }

  predicate InLoop(s: Users, e: nat, child: nat, pn: nat) {
    Forking(s, e) && s.ctl[e].fork == Some(CowMemory.Fork(child, pn, None))
  }

  /** A whole turn of fork's loop, as its steps without interruption. */
  function Dupped(s: Users, e: nat, child: nat, pn: nat): Users
    requires InLoop(s, e, child, pn) && pn < STACK_PAGES
  {
    var s1 := Apply(s, Dup(e));
    if Enabled(s1, DupAgain(e)) then Apply(s1, DupAgain(e)) else s1
  }

  /** The child has what it should have so far; nobody else sees a difference to `s`. */
  ghost predicate CopiedSoFar(s: Users, s': Users, e: nat, child: nat) {
    && (forall pn: nat :: pn < STACK_PAGES ==> Inheriting(s', e, child, pn, ViewOf(s, Slot(e, pn))))
    && (forall k: Slot :: k.env != child ==> ViewOf(s', k) == ViewOf(s, k))
  }

  lemma ForkStarts(s: Users, e: nat, child: nat, f: nat)
    requires Inv(s) && Enabled(s, StartFork(e, child)) && Fresh(s, f)
    ensures var s' := Apply(s, StartFork(e, child));
      Inv(s') && InLoop(s', e, child, 0) && Fresh(s', f) && CopiedSoFar(s, s', e, child)
  {
    var op := StartFork(e, child);
    StepKeeps(s, op);
    assert Standing(s, e) && Mapping(s);
    forall pn: nat ensures Inheriting(Apply(s, op), e, child, pn, ViewOf(s, Slot(e, pn))) {
      StartInherits(s, e, child, pn);
    }
    forall k ensures ViewOf(Apply(s, op), k) == ViewOf(s, k) {
      ForkEndsViews(s, op, k);
    }
  }

  /** One step of the loop. */
  lemma DupStep(s: Users, s1: Users, e: nat, child: nat, op: Op)
    requires Inv(s1) && CopiedSoFar(s, s1, e, child) && Enabled(s1, op) && (op == Dup(e) || op == DupAgain(e))
    requires ForkOf(s1, e, child)
    ensures Inv(Apply(s1, op)) && CopiedSoFar(s, Apply(s1, op), e, child)
  {
    hide Inv, Apply, ViewOf, Inheriting, Enabled, ForkOf, Owned;
    StepKeeps(s1, op);
    forall pn: nat | pn < STACK_PAGES ensures Inheriting(Apply(s1, op), e, child, pn, ViewOf(s, Slot(e, pn))) {
      CalmStep(s1, op, e, child, pn, ViewOf(s, Slot(e, pn)));
    }
    forall k: Slot | k.env != child ensures ViewOf(Apply(s1, op), k) == ViewOf(s1, k) {
      DupLeaves(s1, e, child, op, k);
      ViewKept(s1, op, k);
    }
  }

  lemma DupLeaves(s: Users, e: nat, child: nat, op: Op, k: Slot)
    requires Enabled(s, op) && (op == Dup(e) || op == DupAgain(e)) && ForkOf(s, e, child) && k.env != child
    ensures Leaves(Meaning(s, op), k)
  {
  }

  lemma DuppedControl(s: Users, e: nat, child: nat, pn: nat, f: nat)
    requires InLoop(s, e, child, pn) && pn < STACK_PAGES && Fresh(s, f) && child != e
    ensures var s1 := Apply(s, Dup(e)); var s' := Dupped(s, e, child, pn);
      ForkOf(s, e, child) && ForkOf(s1, e, child) && InLoop(s', e, child, pn + 1) && Fresh(s', f)
  {
    hide Has;
  }

  lemma DupSteps(s: Users, s1: Users, e: nat, child: nat, pn: nat, f: nat)
    requires Inv(s1) && CopiedSoFar(s, s1, e, child) && InLoop(s1, e, child, pn) && pn < STACK_PAGES && Fresh(s1, f)
    ensures var s' := Dupped(s1, e, child, pn);
      Inv(s') && CopiedSoFar(s, s', e, child) && InLoop(s', e, child, pn + 1) && Fresh(s', f)
  {
    ChildIsOther(s1, e, s1.ctl[e].fork.value);
    assert Enabled(s1, Dup(e));
    hide Inv, CopiedSoFar, Apply, Enabled, InLoop, ForkOf, Fresh;
    DuppedControl(s1, e, child, pn, f);
    DupStep(s, s1, e, child, Dup(e));
    if Enabled(Apply(s1, Dup(e)), DupAgain(e)) {
      DupStep(s, Apply(s1, Dup(e)), e, child, DupAgain(e));
    }
  }

  ghost predicate Forked(s: Users, s': Users, e: nat, child: nat) {
    && Idle(s', e) && Idle(s', child)
    && (forall pn: nat :: pn < STACK_PAGES ==> ViewOf(s', Slot(child, pn)) == ViewOf(s, Slot(e, pn)))
    && ViewOf(s', Slot(child, UX_PAGE)) == Some(View.Private(ZeroFrame(), true))
    && (forall k: Slot :: k.env != child ==> ViewOf(s', k) == ViewOf(s, k))
  }

  /** The exception stack is the child's own zeroed page. */
  lemma ChildStackView(s: Users, e: nat, child: nat, f: nat)
    requires Enabled(s, ChildStack(e, f)) && s.ctl[e].fork.value.child == child && Standing(s, e)
    ensures var s' := Apply(s, ChildStack(e, f));
      && Enabled(s', EndFork(e)) && ViewOf(s', Slot(child, UX_PAGE)) == Some(View.Private(ZeroFrame(), true))
      && (forall k :: k != Slot(child, UX_PAGE) ==> ViewOf(s', k) == ViewOf(s, k))
  {
    PermFacts(f);
    forall k | k != Slot(child, UX_PAGE) ensures ViewOf(Apply(s, ChildStack(e, f)), k) == ViewOf(s, k) {
      ChildStackSteady(s, ChildStack(e, f), k);
    }
  }

  lemma LastControl(s: Users, e: nat, child: nat, f: nat)
    requires InLoop(s, e, child, STACK_PAGES) && Fresh(s, f) && child in s.ctl && child != e
    requires s.ctl[child].fork.None? && s.ctl[child].fault.None?
    ensures Enabled(s, ChildStack(e, f))
    ensures var s2 := Apply(s, ChildStack(e, f));
      Enabled(s2, EndFork(e)) && Idle(Apply(s2, EndFork(e)), e) && Idle(Apply(s2, EndFork(e)), child)
  {
    hide Fresh;
  }

  lemma ForkEnds(s: Users, s1: Users, e: nat, child: nat, f: nat)
    requires Inv(s1) && CopiedSoFar(s, s1, e, child) && InLoop(s1, e, child, STACK_PAGES) && Fresh(s1, f)
    ensures Enabled(s1, ChildStack(e, f)) && Enabled(Apply(s1, ChildStack(e, f)), EndFork(e))
    ensures var s' := Apply(Apply(s1, ChildStack(e, f)), EndFork(e)); Inv(s') && Forked(s, s', e, child)
  {
    assert Standing(s1, e) && Standing(s1, child) && child != e && s1.ctl[child].fork.None? && s1.ctl[child].fault.None?;
    assert s1.ctl[e].fork.value.child == child;
    hide Inv, Apply, Enabled, ViewOf, Standing, InLoop, Inheriting, Fresh, Idle;
    LastControl(s1, e, child, f);
    ChildStackView(s1, e, child, f);
    var s2 := Apply(s1, ChildStack(e, f));
    StepKeeps(s1, ChildStack(e, f));
    StepKeeps(s2, EndFork(e));
    forall k ensures ViewOf(Apply(s2, EndFork(e)), k) == ViewOf(s2, k) {
      LastView(s2, e, k);
    }
    forall pn: nat | pn < STACK_PAGES ensures ViewOf(s1, Slot(child, pn)) == ViewOf(s, Slot(e, pn)) {
      assert Inheriting(s1, e, child, pn, ViewOf(s, Slot(e, pn)));
      AllSettled(s1, e, child, pn, ViewOf(s, Slot(e, pn)));
    }
  }

  lemma LastView(s: Users, e: nat, k: Slot)
    requires Inv(s) && Enabled(s, EndFork(e))
    ensures ViewOf(Apply(s, EndFork(e)), k) == ViewOf(s, k)
  {
    assert Standing(s, e) && Mapping(s);
    ForkEndsViews(s, EndFork(e), k);
  }

  lemma AllSettled(s: Users, e: nat, child: nat, pn: nat, v: Option<View>)
    requires Inheriting(s, e, child, pn, v) && InLoop(s, e, child, STACK_PAGES) && pn < STACK_PAGES
    ensures ViewOf(s, Slot(child, pn)) == v
  {
  }

  lemma TempUnmapped(s: Users, e: nat)
    requires Inv(s) && e in s.ctl && s.ctl[e].fault.None?
    ensures Slot(e, TEMP) !in s.pt
  {
    assert Standing(s, e);
  }
}
