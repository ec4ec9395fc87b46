/** What every step of copy-on-write fork keeps: a frame that some page maps writable and private has that
    one mapping only, apart from PFTEMP inside pgfault and from a child's page inside duppage. */
module CowInvariant {
  import opened Mmu
  import opened Options
  import opened CowMemory

  /** The child's page `k` between duppage's two calls, if the parent's page was writable at the first. */
  predicate Pending(s: Users, k: Slot) {
    k.env in s.ctl && s.ctl[k.env].parent.Some? &&
    var p := s.ctl[k.env].parent.value;
    p in s.ctl && HalfWay(s.ctl[p].fork, k)
  }

  predicate HalfWay(fork: Option<Fork>, k: Slot) {
    && fork.Some? && fork.value.child == k.env && fork.value.next == k.pn
    && fork.value.half.Some? && fork.value.half.value
  }

  /** `k` and `k'` may map one frame although `k` may write to it. */
  predicate Twins(s: Users, k: Slot, k': Slot) {
    || (Pending(s, k') && s.ctl[k'.env].parent == Some(k.env) && k'.pn == k.pn)
    || (k.env == k'.env && k.env in s.ctl && MovedPair(s.ctl[k.env].fault, k.pn, k'.pn))
  }

  predicate MovedPair(fault: Option<Fault>, a: nat, b: nat) {
    fault.Some? && fault.value.stage == Moved && ((a == TEMP && b == fault.value.pn) || (b == TEMP && a == fault.value.pn))
  }

  predicate SameFrame(s: Users, k: Slot, k': Slot) {
    k in s.pt && k' in s.pt && s.pt[k].frame == s.pt[k'].frame
  }

  ghost predicate Private(s: Users) {
    forall k, k' {:trigger k in s.pt, k' in s.pt} :: SameFrame(s, k, k') && k != k' && Owned(s.pt[k]) ==> Twins(s, k, k')
  }

  /** Shared pages are writable, and a frame is either shared by all that map it or by none. */
  ghost predicate SharedApart(s: Users) {
    && (forall k :: k in s.pt && Share(s.pt[k]) ==> Writable(s.pt[k]))
    && (forall k, k' {:trigger k in s.pt, k' in s.pt} :: SameFrame(s, k, k') && Share(s.pt[k]) ==> Share(s.pt[k']))
  }

  ghost predicate Mapping(s: Users) {
    forall k :: k in s.pt ==> User(s.pt[k]) && k.pn < USER_PAGES && k.env in s.ctl
  }

  /** Where an environment inside pgfault stands. PFTEMP is mapped inside pgfault only. */
  predicate FaultState(s: Users, e: nat)
    requires e in s.ctl
  {
    match s.ctl[e].fault
    case None => Slot(e, TEMP) !in s.pt
    case Some(fault) =>
      && s.ctl[e].parent.None? && fault.pn < STACK_PAGES && fault.pn != TEMP && Slot(e, fault.pn) in s.pt
      && match fault.stage
         case Entered => CowOnly(s.pt[Slot(e, fault.pn)]) && Slot(e, TEMP) !in s.pt
         case Copying(n) =>
           && CowOnly(s.pt[Slot(e, fault.pn)]) && Slot(e, TEMP) in s.pt && Owned(s.pt[Slot(e, TEMP)]) && n <= PGSIZE
           && SamePrefix(Content(s, s.pt[Slot(e, TEMP)].frame), Content(s, s.pt[Slot(e, fault.pn)].frame), n)
         case Moved =>
           && Slot(e, TEMP) in s.pt && s.pt[Slot(e, fault.pn)].frame == s.pt[Slot(e, TEMP)].frame
           && Owned(s.pt[Slot(e, TEMP)]) && Owned(s.pt[Slot(e, fault.pn)])
  }

  predicate SamePrefix(a: Page, b: Page, n: nat) {
    forall i :: 0 <= i < n && i < PGSIZE ==> a[i] == b[i]
  }

  /** Where an environment inside fork stands. */
  ghost predicate ForkState(s: Users, e: nat)
    requires e in s.ctl
  {
    match s.ctl[e].fork
    case None => true
    case Some(fork) =>
      && s.ctl[e].parent.None? && fork.child in s.ctl && s.ctl[fork.child].parent == Some(e)
      && fork.next <= STACK_PAGES + 1
      && (fork.half.Some? ==> HalfState(s, e, fork))
      && (forall pn :: Slot(fork.child, pn) in s.pt ==> Filled(fork, pn))
  }

  /** The child's pages that are in place. */
  predicate Filled(fork: Fork, pn: nat) {
    || (pn < fork.next && pn < STACK_PAGES)
    || (pn == fork.next && fork.half.Some?)
    || (pn == UX_PAGE && fork.next == STACK_PAGES + 1)
  }

  predicate HalfState(s: Users, e: nat, fork: Fork)
    requires fork.half.Some?
  {
    var mine, theirs := Slot(e, fork.next), Slot(fork.child, fork.next);
    && fork.next < STACK_PAGES && fork.next != TEMP && mine in s.pt && theirs in s.pt
    && CowOnly(s.pt[theirs]) && (CowOnly(s.pt[mine]) || Owned(s.pt[mine]))
    && (fork.half.value ==> Writable(s.pt[mine]))
    && (fork.half.value || !Writable(s.pt[mine]) ==> s.pt[mine].frame == s.pt[theirs].frame)
  }

  /** An environment that is being built does nothing, and its parent, if alive, is inside that very fork. */
  predicate ChildState(s: Users, e: nat)
    requires e in s.ctl
  {
    s.ctl[e].parent.Some? ==>
      && s.ctl[e].fork.None? && s.ctl[e].fault.None?
      && (s.ctl[e].parent.value in s.ctl ==> ChildOf(s, s.ctl[e].parent.value, e))
  }

  predicate ChildOf(s: Users, e: nat, c: nat) {
    e in s.ctl && s.ctl[e].fork.Some? && s.ctl[e].fork.value.child == c
  }

  ghost predicate Standing(s: Users, e: nat) {
    e in s.ctl && FaultState(s, e) && ForkState(s, e) && ChildState(s, e)
  }

  ghost predicate Controls(s: Users) {
    forall e {:trigger e in s.ctl} :: e in s.ctl ==> Standing(s, e)
  }

  ghost predicate Pages(s: Users) {
    Mapping(s) && SharedApart(s) && Private(s)
  }

  ghost predicate Inv(s: Users) {
    Pages(s) && Controls(s)
  }

  // ----- steps keep it -----

  /** The same entry, or none, in both states. */
  predicate SameSlot(s: Users, s': Users, k: Slot) {
    (k in s.pt <==> k in s'.pt) && (k in s.pt ==> s'.pt[k] == s.pt[k])
  }

  /** Nothing that FaultState and ForkState look at has changed for `a`. */
  ghost predicate Undisturbed(s: Users, s': Users, a: nat) {
    && a in s.ctl && a in s'.ctl && s'.ctl[a] == s.ctl[a]
    && (forall k: Slot :: k.env == a ==> SameSlot(s, s', k))
    && (s.ctl[a].fork.Some? ==>
          var c := s.ctl[a].fork.value.child;
          && (c in s.ctl ==> c in s'.ctl && s'.ctl[c].parent == s.ctl[c].parent)
          && forall k: Slot :: k.env == c ==> SameSlot(s, s', k))
    && (s.ctl[a].parent.Some? ==> SameParent(s, s', s.ctl[a].parent.value, a))
    && (InCopy(s, a) ==>
          && SameContent(s, s', Slot(a, TEMP))
          && SameContent(s, s', Slot(a, s.ctl[a].fault.value.pn)))
  }

  predicate SameParent(s: Users, s': Users, p: nat, a: nat) {
    p in s'.ctl ==> p in s.ctl && (ChildOf(s, p, a) ==> ChildOf(s', p, a))
  }

  predicate InCopy(s: Users, a: nat) {
    a in s.ctl && s.ctl[a].fault.Some? && s.ctl[a].fault.value.stage.Copying?
  }

  predicate SameContent(s: Users, s': Users, k: Slot) {
    k in s.pt ==> Content(s', s.pt[k].frame) == Content(s, s.pt[k].frame)
  }

  lemma UndisturbedKeeps(s: Users, s': Users, a: nat)
    requires Undisturbed(s, s', a) && Standing(s, a)
    ensures Standing(s', a)
  {
    hide CowOnly, Owned, Writable;
    assert SameSlot(s, s', Slot(a, TEMP));
  }

  /** The step belongs to `e`: it leaves other controls alone, and pages other than those of `e` and of the
      children in `kids`. */
  ghost predicate Local(s: Users, s': Users, e: nat, kids: set<nat>) {
    && Runs(s, e) && s'.ctl.Keys == s.ctl.Keys
    && (forall a :: a in s.ctl && a != e ==> s'.ctl[a] == s.ctl[a])
    && s'.ctl[e].parent == None && (forall c :: ChildOf(s, e, c) ==> ChildOf(s', e, c))
    && (forall k: Slot :: k.env != e && k.env !in kids ==> SameSlot(s, s', k))
    && (s'.mem == s.mem || CopiesSafe(s, s', e))
  }

  ghost predicate CopiesSafe(s: Users, s': Users, e: nat) {
    forall a, k: Slot {:trigger InCopy(s, a), SameContent(s, s', k)} :: a != e && InCopy(s, a) && k.env == a ==> SameContent(s, s', k)
  }

  /** The child of another environment's fork is neither `e` nor one of its children. */
  lemma OtherChild(s: Users, e: nat, kids: set<nat>, a: nat)
    requires Runs(s, e) && Standing(s, a) && a != e && s.ctl[a].fork.Some?
    requires forall c :: c in kids ==> ChildOf(s, e, c) && Standing(s, e)
    ensures var c := s.ctl[a].fork.value.child; c in s.ctl && c != e && c !in kids
  {
    hide FaultState, HalfState;
  }

  lemma LocalUndisturbed(s: Users, s': Users, e: nat, kids: set<nat>, a: nat)
    requires Local(s, s', e, kids) && Standing(s, a) && a != e && a !in kids
    requires forall c :: c in kids ==> ChildOf(s, e, c) && Standing(s, e)
    ensures Undisturbed(s, s', a)
  {
    if s.ctl[a].fork.Some? {
      OtherChild(s, e, kids, a);
    }
    hide Standing, SameSlot, SameContent, InCopy;
    if InCopy(s, a) {
      var source := Slot(a, s.ctl[a].fault.value.pn);
      if s'.mem == s.mem {
        SameMemory(s, s', Slot(a, TEMP));
        SameMemory(s, s', source);
      }
      assert SameContent(s, s', Slot(a, TEMP)) && SameContent(s, s', source);
    }
  }

  lemma SameMemory(s: Users, s': Users, k: Slot)
    requires s'.mem == s.mem
    ensures SameContent(s, s', k)
  {
  }

  lemma LocalKeeps(s: Users, s': Users, e: nat, kids: set<nat>)
    requires Controls(s) && Local(s, s', e, kids) && Standing(s', e)
    requires forall c :: c in kids ==> ChildOf(s, e, c) && Standing(s', c)
    ensures Controls(s')
  {
    assert Standing(s, e);
    forall a | a in s'.ctl && a != e && a !in kids ensures Standing(s', a) {
      assert Standing(s, a);
      hide *;
      LocalUndisturbed(s, s', e, kids, a);
      UndisturbedKeeps(s, s', a);
    }
  }

  // ----- a permitted store -----

  /** Nobody but `k` itself, and a pending child's page, maps the frame that a permitted store changes. */
  lemma SoleWriter(s: Users, e: nat, pn: nat, k': Slot)
    requires Inv(s) && Runs(s, e) && Slot(e, pn) in s.pt && Owned(s.pt[Slot(e, pn)])
    requires s.ctl[e].fault.None? || pn == UX_PAGE
    requires k' in s.pt && k' != Slot(e, pn) && s.pt[k'].frame == s.pt[Slot(e, pn)].frame
    ensures Pending(s, k') && CowOnly(s.pt[k'])
  {
    assert Twins(s, Slot(e, pn), k');
    assert Standing(s, e);
  }

  /** Neither page of a copy in progress can be written by anyone else. */
  lemma CopyUndisturbed(s: Users, op: Op, a: nat, k': Slot)
    requires Inv(s) && op.Write? && Enabled(s, op) && InCopy(s, a)
    requires k' in s.pt && k'.env == a && (k'.pn == TEMP || k'.pn == s.ctl[a].fault.value.pn)
    ensures s.pt[Slot(op.e, op.pn)].frame != s.pt[k'].frame
  {
    var k := Slot(op.e, op.pn);
    assert Standing(s, a) && Standing(s, op.e);
    if s.pt[k'].frame == s.pt[k].frame && Owned(s.pt[k]) && k' != k {
      SoleWriter(s, op.e, op.pn, k');
    }
  }

  lemma WritePages(s: Users, op: Op)
    requires Pages(s) && op.Write? && Enabled(s, op)
    ensures Pages(Apply(s, op))
  {
    assert forall k :: Pending(Apply(s, op), k) == Pending(s, k);
    KeepsPages(s, Apply(s, op));
  }

  lemma InvParts(s: Users, e: nat)
    requires Inv(s)
    ensures Pages(s) && Controls(s) && (e in s.ctl ==> Standing(s, e))
  {
  }

  lemma WriteUndisturbed(s: Users, op: Op, a: nat)
    requires Inv(s) && op.Write? && Enabled(s, op) && a in s.ctl
    ensures Undisturbed(s, Apply(s, op), a)
  {
    hide Inv, Share, User;
    WriteMaps(s, op);
    if InCopy(s, a) {
      forall k' | k' in s.pt && k'.env == a && (k'.pn == TEMP || k'.pn == s.ctl[a].fault.value.pn)
        ensures SameContent(s, Apply(s, op), k')
      {
        CopyUndisturbed(s, op, a, k');
      }
    }
    hide Apply, Enabled, InCopy, SameContent;
  }

  lemma WriteMaps(s: Users, op: Op)
    requires op.Write? && Enabled(s, op)
    ensures Apply(s, op).pt == s.pt && Apply(s, op).ctl == s.ctl
  {
  }

  lemma WriteKeeps(s: Users, op: Op)
    requires Inv(s) && op.Write? && Enabled(s, op)
    ensures Inv(Apply(s, op))
  {
    Parts(s, Apply(s, op));
    assert forall a :: a in Apply(s, op).ctl ==> a in s.ctl;
    hide Inv, Pages, Apply, Standing;
    WritePages(s, op);
    forall a | a in Apply(s, op).ctl ensures Standing(Apply(s, op), a) {
      assert Standing(s, a);
      WriteUndisturbed(s, op, a);
      UndisturbedKeeps(s, Apply(s, op), a);
    }
  }

  // ----- storing one entry -----

  /** Every permitted pair of mappings away from `k0` stays permitted. */
  ghost predicate TwinsStay(s: Users, s': Users, k0: Slot) {
    forall k, k' :: k != k0 && k' != k0 && Twins(s, k, k') ==> Twins(s', k, k')
  }

  /** Entry `x` may be stored at `k0` beside the mapping `k` of its frame. */
  predicate Beside(s: Users, s': Users, k0: Slot, x: Entry, k: Slot)
    requires k in s.pt
  {
    && (Share(x) <==> Share(s.pt[k]))
    && (Owned(x) ==> Twins(s', k0, k))
    && (Owned(s.pt[k]) ==> Twins(s', k, k0))
  }

  lemma StoreKeepsPages(s: Users, s': Users, k0: Slot, x: Entry)
    requires Pages(s) && s'.pt == s.pt[k0 := x] && (forall a :: a in s.ctl ==> a in s'.ctl)
    requires User(x) && k0.pn < USER_PAGES && k0.env in s'.ctl && (Share(x) ==> Writable(x))
    requires TwinsStay(s, s', k0)
    requires forall k :: k in s.pt && k != k0 && s.pt[k].frame == x.frame ==> Beside(s, s', k0, x, k)
    ensures Pages(s')
  {
    forall k, k' | SameFrame(s', k, k') && k != k' && Owned(s'.pt[k]) ensures Twins(s', k, k') {
      assert k != k0 && k' != k0 ==> SameFrame(s, k, k');
    }
  }

  lemma KeepsPages(s: Users, s': Users)
    requires Pages(s) && (forall k :: k in s'.pt ==> k in s.pt && s'.pt[k] == s.pt[k])
    requires forall k :: k in s'.pt ==> k.env in s'.ctl
    requires forall k, k' :: k in s'.pt && k' in s'.pt && Twins(s, k, k') ==> Twins(s', k, k')
    ensures Pages(s')
  {
    forall k, k' | SameFrame(s', k, k') && k != k' && Owned(s'.pt[k]) ensures Twins(s', k, k') {
      assert SameFrame(s, k, k');
    }
  }

  // ----- pgfault -----

  /** Only its partners share the frame of a page that its environment owns. */
  lemma OnlyTwins(s: Users, k: Slot, k': Slot)
    requires Pages(s) && SameFrame(s, k, k') && k != k' && Owned(s.pt[k])
    ensures Twins(s, k, k') && !Share(s.pt[k'])
  {
  }

  lemma EnterPages(s: Users, op: Op)
    requires Inv(s) && op.Enter? && Enabled(s, op)
    ensures Pages(Apply(s, op))
  {
    KeepsPages(s, Apply(s, op));
  }

  lemma EnterStanding(s: Users, op: Op)
    requires Inv(s) && op.Enter? && Enabled(s, op)
    ensures Standing(Apply(s, op), op.e)
  {
    assert Standing(s, op.e);
  }

  lemma TakeFramePages(s: Users, op: Op)
    requires Inv(s) && op.TakeFrame? && Enabled(s, op)
    ensures Pages(Apply(s, op))
  {
    var s' := Apply(s, op);
    PermFacts(op.f);
    assert s'.pt == s.pt[Slot(op.e, TEMP) := PresentEntry(op.f, WRITE_PERM)];
    StoreKeepsPages(s, s', Slot(op.e, TEMP), PresentEntry(op.f, WRITE_PERM));
  }

  lemma TakeFrameStanding(s: Users, op: Op)
    requires Inv(s) && op.TakeFrame? && Enabled(s, op)
    ensures Standing(Apply(s, op), op.e)
  {
    assert Standing(s, op.e);
    PermFacts(op.f);
  }

  lemma CopyBytePages(s: Users, op: Op)
    requires Inv(s) && op.CopyByte? && Enabled(s, op)
    ensures Pages(Apply(s, op))
  {
    KeepsPages(s, Apply(s, op));
  }

  lemma CopyByteStanding(s: Users, op: Op)
    requires Inv(s) && op.CopyByte? && Enabled(s, op)
    ensures Standing(Apply(s, op), op.e)
  {
    assert Standing(s, op.e);
  }

  lemma MoveFramePages(s: Users, op: Op)
    requires Inv(s) && op.MoveFrame? && Enabled(s, op)
    ensures Pages(Apply(s, op))
  {
    hide Inv, Pages, Controls;
    InvParts(s, op.e);
    var s' := Apply(s, op);
    assert op.e in s.ctl;
    var temp, k0 := Slot(op.e, TEMP), Slot(op.e, s.ctl[op.e].fault.value.pn);
    var x := PresentEntry(s.pt[temp].frame, WRITE_PERM);
    PermFacts(x.frame);
    assert s'.pt == s.pt[k0 := x];
    forall k | k in s.pt && k != k0 && s.pt[k].frame == x.frame ensures Beside(s, s', k0, x, k) {
      if k != temp {
        OnlyTwins(s, temp, k);
      }
    }
    StoreKeepsPages(s, s', k0, x);
  }

  lemma MoveFrameStanding(s: Users, op: Op)
    requires Inv(s) && op.MoveFrame? && Enabled(s, op)
    ensures Standing(Apply(s, op), op.e)
  {
    assert Standing(s, op.e);
    PermFacts(s.pt[Slot(op.e, TEMP)].frame);
  }

  lemma LeavePages(s: Users, op: Op)
    requires Inv(s) && op.Leave? && Enabled(s, op)
    ensures Pages(Apply(s, op))
  {
    InvParts(s, op.e);
    assert Mapping(s);
    hide Inv, Pages, Mapping, Standing, Owned;
    KeepsPages(s, Apply(s, op));
  }

  lemma LeaveStanding(s: Users, op: Op)
    requires Inv(s) && op.Leave? && Enabled(s, op)
    ensures Standing(Apply(s, op), op.e)
  {
    assert Standing(s, op.e);
  }

  predicate InHandler(op: Op) {
    op.Enter? || op.TakeFrame? || op.CopyByte? || op.MoveFrame? || op.Leave?
  }

  /** The byte is copied into a frame that no other copy reads or writes. */
  lemma CopyByteSafe(s: Users, op: Op)
    requires Inv(s) && op.CopyByte? && Enabled(s, op)
    ensures CopiesSafe(s, Apply(s, op), op.e)
  {
    var temp := Slot(op.e, TEMP);
    assert Standing(s, op.e);
    forall a, k: Slot | a != op.e && InCopy(s, a) && k.env == a ensures SameContent(s, Apply(s, op), k) {
      assert Standing(s, a);
      hide Standing;
      if SameFrame(s, temp, k) {
        OnlyTwins(s, temp, k);
      }
    }
  }

  lemma HandlerRuns(s: Users, e: nat)
    requires Inv(s) && Faulting(s, e)
    ensures Runs(s, e)
  {
    assert Standing(s, e);
  }

  lemma NewFrameSafe(s: Users, op: Op)
    requires op.TakeFrame? && Enabled(s, op)
    ensures CopiesSafe(s, Apply(s, op), op.e)
  {
  }

  lemma HandlerLocal(s: Users, op: Op)
    requires InHandler(op) && Enabled(s, op) && Runs(s, op.e) && (op.CopyByte? ==> CopiesSafe(s, Apply(s, op), op.e))
    ensures Local(s, Apply(s, op), op.e, {})
  {
    hide CopiesSafe, Has, CowOnly;
    if op.TakeFrame? {
      NewFrameSafe(s, op);
    }
  }

  lemma HandlerKeeps(s: Users, op: Op)
    requires Inv(s) && InHandler(op) && Enabled(s, op)
    ensures Inv(Apply(s, op))
  {
    Parts(s, Apply(s, op));
    assert !op.Enter? ==> Faulting(s, op.e);
    assert op.Enter? ==> Runs(s, op.e);
    hide *;
    match op {
      case Enter(_, _) => EnterPages(s, op); EnterStanding(s, op);
      case TakeFrame(_, _) => TakeFramePages(s, op); TakeFrameStanding(s, op);
      case CopyByte(_) => CopyBytePages(s, op); CopyByteStanding(s, op); CopyByteSafe(s, op);
      case MoveFrame(_) => MoveFramePages(s, op); MoveFrameStanding(s, op);
      case Leave(_) => LeavePages(s, op); LeaveStanding(s, op);
      case _ =>
    }
    if !op.Enter? {
      HandlerRuns(s, op.e);
    }
    HandlerLocal(s, op);
    LocalKeeps(s, Apply(s, op), op.e, {});
  }

  lemma Parts(s: Users, s': Users)
    ensures Inv(s) <==> Pages(s) && Controls(s)
    ensures Inv(s') <==> Pages(s') && Controls(s')
  {
  }

  // ----- fork -----

  lemma StartForkPages(s: Users, op: Op)
    requires Inv(s) && op.StartFork? && Enabled(s, op)
    ensures Pages(Apply(s, op))
  {
    KeepsPages(s, Apply(s, op));
  }

  lemma StartForkStanding(s: Users, op: Op, a: nat)
    requires Pages(s) && op.StartFork? && Enabled(s, op) && a in Apply(s, op).ctl && (a != op.c ==> Standing(s, a))
    ensures Standing(Apply(s, op), a)
  {
    assert forall pn :: Slot(op.c, pn) !in s.pt;
    hide Pages;
    if a != op.c && a != op.e {
      assert Undisturbed(s, Apply(s, op), a) by { hide HalfState, FaultState; }
      hide *;
      UndisturbedKeeps(s, Apply(s, op), a);
    }
  }

  lemma StartForkKeeps(s: Users, op: Op)
    requires Inv(s) && op.StartFork? && Enabled(s, op)
    ensures Inv(Apply(s, op))
  {
    StartForkPages(s, op);
    forall a | a in Apply(s, op).ctl ensures Standing(Apply(s, op), a) {
      assert a != op.c ==> a in s.ctl;
      assert a != op.c ==> Standing(s, a);
      hide *;
      StartForkStanding(s, op, a);
    }
  }

  /** While its environment is outside pgfault and duppage, no other mapping of a page's frame is writable and
      private, and a page that is itself so has the frame to itself. */
  lemma Alone(s: Users, e: nat, pn: nat, k: Slot)
    requires Inv(s) && Runs(s, e) && s.ctl[e].fault.None? && k != Slot(e, pn) && SameFrame(s, Slot(e, pn), k)
    ensures !Owned(s.pt[k]) && (Share(s.pt[k]) <==> Share(s.pt[Slot(e, pn)]))
    ensures Owned(s.pt[Slot(e, pn)]) ==> Pending(s, k) && s.ctl[k.env].parent == Some(e) && k.pn == pn
  {
    hide Owned, Share;
    assert SameFrame(s, k, Slot(e, pn));
  }

  /** The entry that duppage stores for the child. */
  predicate Inherits(mine: Entry, x: Entry) {
    && x.frame == mine.frame && User(x) && !Owned(x)
    && (Share(x) <==> Share(mine)) && (Share(x) ==> Writable(x))
  }

  /** duppage's first call: from `s` to `s'` the entry `x` appears at the child's page `dst`. */
  ghost predicate Dups(s: Users, s': Users, e: nat, fork: Fork, x: Entry) {
    && Runs(s, e) && s.ctl[e].fault.None? && s.ctl[e].fork == Some(fork) && fork.half.None?
    && fork.next < STACK_PAGES && Slot(e, fork.next) in s.pt && Inherits(s.pt[Slot(e, fork.next)], x)
    && s'.pt == s.pt[Slot(fork.child, fork.next) := x]
    && s'.mem == s.mem && e in s'.ctl && s'.ctl == s.ctl[e := s.ctl[e].(fork := s'.ctl[e].fork)]
    && Advances(s'.ctl[e].fork, fork, s.pt[Slot(e, fork.next)], x)
  }

  /** Writable or copy-on-write pages await duppage's second call; the others are done. */
  predicate Advances(fork': Option<Fork>, fork: Fork, mine: Entry, x: Entry) {
    if Owned(mine) || CowOnly(mine) then fork' == Some(fork.(half := Some(Writable(mine)))) && CowOnly(x)
    else fork' == Some(fork.(next := fork.next + 1))
  }

  lemma DupTwins(s: Users, s': Users, e: nat, fork: Fork, x: Entry)
    requires Dups(s, s', e, fork, x) && Standing(s, e)
    ensures TwinsStay(s, s', Slot(fork.child, fork.next))
    ensures Owned(s.pt[Slot(e, fork.next)]) ==> Twins(s', Slot(e, fork.next), Slot(fork.child, fork.next))
    ensures forall k :: Pending(s, k) ==> s.ctl[k.env].parent != Some(e)
    ensures fork.child in s'.ctl
  {
    assert forall k :: Pending(s, k) ==> Pending(s', k);
  }

  lemma DupStorePages(s: Users, s': Users, e: nat, fork: Fork, x: Entry)
    requires Inv(s) && Standing(s, e) && Dups(s, s', e, fork, x)
    ensures Pages(s')
  {
    DupTwins(s, s', e, fork, x);
    var src, dst := Slot(e, fork.next), Slot(fork.child, fork.next);
    assert Pages(s);
    hide Inv, Pages, Standing, Twins, Pending, TwinsStay, Owned, Share, Writable, User;
    forall k | k in s.pt && k != dst && s.pt[k].frame == x.frame ensures Beside(s, s', dst, x, k) {
      if k != src {
        Alone(s, e, fork.next, k);
      }
    }
    StoreKeepsPages(s, s', dst, x);
  }

  lemma DupStanding(s: Users, s': Users, e: nat, fork: Fork, x: Entry)
    requires Standing(s, e) && Dups(s, s', e, fork, x) && Standing(s, fork.child)
    ensures Standing(s', e) && Standing(s', fork.child) && Local(s, s', e, {fork.child}) && ChildOf(s, e, fork.child)
  {
    hide Owned, CowOnly, Share, Writable, User;
    assert SameSlot(s, s', Slot(e, fork.next));
  }

  lemma DupIsDups(s: Users, op: Op)
    requires Mapping(s) && SharedApart(s) && op.Dup? && Enabled(s, op) && Slot(op.e, s.ctl[op.e].fork.value.next) in s.pt
    ensures var fork := s.ctl[op.e].fork.value; var dst := Slot(fork.child, fork.next);
      dst in Apply(s, op).pt && Dups(s, Apply(s, op), op.e, fork, Apply(s, op).pt[dst])
  {
    PermFacts(s.pt[Slot(op.e, s.ctl[op.e].fork.value.next)].frame);
  }

  lemma DupSkipsPages(s: Users, op: Op)
    requires Pages(s) && Standing(s, op.e) && op.Dup? && Enabled(s, op) && Slot(op.e, s.ctl[op.e].fork.value.next) !in s.pt
    ensures Pages(Apply(s, op))
  {
    var s' := Apply(s, op);
    assert s'.pt == s.pt && forall k :: Pending(s, k) ==> Pending(s', k);
    hide Pages, Standing, Owned;
    KeepsPages(s, s');
  }

  lemma DupSkips(s: Users, op: Op)
    requires Standing(s, op.e) && op.Dup? && Enabled(s, op) && Slot(op.e, s.ctl[op.e].fork.value.next) !in s.pt
    ensures Standing(Apply(s, op), op.e) && Local(s, Apply(s, op), op.e, {})
  {
    hide HalfState;
  }

  lemma ChildStanding(s: Users, e: nat)
    requires Inv(s) && Forking(s, e)
    ensures Standing(s, e) && s.ctl[e].fork.value.child in s.ctl && Standing(s, s.ctl[e].fork.value.child)
  {
    assert Standing(s, e);
  }

  lemma DupForking(s: Users, op: Op)
    requires op.Dup? && Enabled(s, op)
    ensures Forking(s, op.e) && op.e in s.ctl && s.ctl[op.e].fork.Some?
  {
  }

  lemma PageParts(s: Users)
    requires Pages(s)
    ensures Mapping(s) && SharedApart(s)
  {
  }

  lemma DupKeeps(s: Users, op: Op)
    requires Inv(s) && op.Dup? && Enabled(s, op)
    ensures Inv(Apply(s, op))
  {
    DupForking(s, op);
    hide *;
    var s' := Apply(s, op);
    var fork := s.ctl[op.e].fork.value;
    var src, dst := Slot(op.e, fork.next), Slot(fork.child, fork.next);
    Parts(s, s');
    PageParts(s);
    ChildStanding(s, op.e);
    if src in s.pt {
      DupIsDups(s, op);
      DupStorePages(s, s', op.e, fork, s'.pt[dst]);
      DupStanding(s, s', op.e, fork, s'.pt[dst]);
      LocalKeeps(s, s', op.e, {fork.child});
    } else {
      DupSkipsPages(s, op);
      DupSkips(s, op);
      LocalKeeps(s, s', op.e, {});
    }
  }

  lemma DupAgainTwins(s: Users, op: Op)
    requires op.DupAgain? && Enabled(s, op) && Standing(s, op.e)
    ensures TwinsStay(s, Apply(s, op), Slot(op.e, s.ctl[op.e].fork.value.next))
  {
    hide FaultState, Has;
  }

  /** The second call stores a copy-on-write entry for the frame the parent has. */
  lemma DupAgainStores(s: Users, op: Op)
    requires op.DupAgain? && Enabled(s, op) && Standing(s, op.e)
    ensures var k0 := Slot(op.e, s.ctl[op.e].fork.value.next);
      && k0 in s.pt && Apply(s, op).pt == s.pt[k0 := PresentEntry(s.pt[k0].frame, COW_PERM)] && !Share(s.pt[k0])
      && op.e in Apply(s, op).ctl && Apply(s, op).ctl.Keys == s.ctl.Keys && k0.pn < STACK_PAGES
  {
    hide FaultState;
    PermFacts(s.pt[Slot(op.e, s.ctl[op.e].fork.value.next)].frame);
  }

  lemma DupAgainPages(s: Users, op: Op)
    requires Inv(s) && op.DupAgain? && Enabled(s, op)
    ensures Pages(Apply(s, op))
  {
    var s' := Apply(s, op);
    var fork := s.ctl[op.e].fork.value;
    var k0 := Slot(op.e, fork.next);
    assert Standing(s, op.e) && Pages(s);
    hide Inv, Pages, Standing, Twins, Pending, TwinsStay, Owned, Share, Writable, User, Apply;
    DupAgainTwins(s, op);
    DupAgainStores(s, op);
    var x := PresentEntry(s.pt[k0].frame, COW_PERM);
    PermFacts(x.frame);
    CowIsPlain(x);
    forall k | k in s.pt && k != k0 && s.pt[k].frame == x.frame ensures Beside(s, s', k0, x, k) {
      Alone(s, op.e, fork.next, k);
    }
    StoreKeepsPages(s, s', k0, x);
  }

  lemma CowIsPlain(x: Entry)
    requires CowOnly(x)
    ensures User(x) && !Share(x) && !Owned(x)
  {
  }

  lemma DupAgainStanding(s: Users, op: Op)
    requires op.DupAgain? && Enabled(s, op) && Standing(s, op.e)
    ensures Standing(Apply(s, op), op.e) && Local(s, Apply(s, op), op.e, {})
  {
  }

  lemma ChildStackPages(s: Users, op: Op)
    requires Pages(s) && op.ChildStack? && Enabled(s, op) && Standing(s, op.e)
    ensures Pages(Apply(s, op))
  {
    PermFacts(op.f);
    var k0 := Slot(s.ctl[op.e].fork.value.child, UX_PAGE);
    assert Apply(s, op).pt == s.pt[k0 := PresentEntry(op.f, WRITE_PERM)];
    StoreKeepsPages(s, Apply(s, op), k0, PresentEntry(op.f, WRITE_PERM));
  }

  lemma ChildStackStanding(s: Users, op: Op)
    requires op.ChildStack? && Enabled(s, op) && Standing(s, op.e) && Standing(s, s.ctl[op.e].fork.value.child)
    ensures var c := s.ctl[op.e].fork.value.child; var s' := Apply(s, op);
      Standing(s', op.e) && Standing(s', c) && Local(s, s', op.e, {c})
  {
    hide Owned, CowOnly, Share, Writable, User;
    assert SameSlot(s, Apply(s, op), Slot(s.ctl[op.e].fork.value.child, TEMP));
  }

  lemma DupRestKeeps(s: Users, op: Op)
    requires Inv(s) && (op.DupAgain? || op.ChildStack?) && Enabled(s, op)
    ensures Inv(Apply(s, op))
  {
    var s' := Apply(s, op);
    var c := s.ctl[op.e].fork.value.child;
    Parts(s, s');
    ChildStanding(s, op.e);
    hide *;
    if op.DupAgain? {
      DupAgainPages(s, op);
      DupAgainStanding(s, op);
      LocalKeeps(s, s', op.e, {});
    } else {
      ChildStackPages(s, op);
      ChildStackStanding(s, op);
      OwnChild(s, op.e);
      LocalKeeps(s, s', op.e, {c});
    }
  }

  lemma OwnChild(s: Users, e: nat)
    requires e in s.ctl && s.ctl[e].fork.Some?
    ensures ChildOf(s, e, s.ctl[e].fork.value.child)
  {
  }

  // ----- the end of fork, and of an environment -----

  lemma EndForkPages(s: Users, op: Op)
    requires Pages(s) && op.EndFork? && Enabled(s, op) && Standing(s, op.e)
    ensures Pages(Apply(s, op))
  {
    var s' := Apply(s, op);
    assert forall k :: Pending(s, k) ==> Pending(s', k);
    KeepsPages(s, s');
  }

  lemma EndForkStanding(s: Users, op: Op, a: nat)
    requires op.EndFork? && Enabled(s, op) && Standing(s, op.e) && Standing(s, a) && Standing(s, s.ctl[op.e].fork.value.child)
    ensures Standing(Apply(s, op), a)
  {
    if a != op.e && a != s.ctl[op.e].fork.value.child {
      assert Undisturbed(s, Apply(s, op), a);
      hide *;
      UndisturbedKeeps(s, Apply(s, op), a);
    }
  }

  lemma EndForkKeeps(s: Users, op: Op)
    requires Inv(s) && op.EndFork? && Enabled(s, op)
    ensures Inv(Apply(s, op))
  {
    var s' := Apply(s, op);
    Parts(s, s');
    ChildStanding(s, op.e);
    assert forall a :: a in s'.ctl ==> a in s.ctl;
    hide Inv, Pages, Apply, Standing;
    EndForkPages(s, op);
    forall a | a in s'.ctl ensures Standing(s', a) {
      assert Standing(s, a);
      EndForkStanding(s, op, a);
    }
  }

  lemma ExitPages(s: Users, op: Op)
    requires Pages(s) && op.Exit? && Enabled(s, op)
    ensures Pages(Apply(s, op))
  {
    var s' := Apply(s, op);
    KeepsPages(s, s');
  }

  lemma ExitStanding(s: Users, op: Op, a: nat)
    requires op.Exit? && Enabled(s, op) && Standing(s, a) && a != op.e
    ensures Standing(Apply(s, op), a)
  {
    assert Undisturbed(s, Apply(s, op), a);
    hide *;
    UndisturbedKeeps(s, Apply(s, op), a);
  }

  lemma ExitKeeps(s: Users, op: Op)
    requires Inv(s) && op.Exit? && Enabled(s, op)
    ensures Inv(Apply(s, op))
  {
    var s' := Apply(s, op);
    Parts(s, s');
    assert forall a :: a in s'.ctl ==> a in s.ctl && a != op.e;
    hide Inv, Pages, Apply, Standing;
    ExitPages(s, op);
    forall a | a in s'.ctl ensures Standing(s', a) {
      assert Standing(s, a);
      ExitStanding(s, op, a);
    }
  }

  /** Every step of every environment keeps the invariant. */
  lemma StepKeeps(s: Users, op: Op)
    requires Inv(s) && Enabled(s, op)
    ensures Inv(Apply(s, op))
  {
    assert InHandler(op) || op.Write? || op.StartFork? || op.Dup? || op.DupAgain? || op.ChildStack? || op.EndFork? || op.Exit?;
    hide *;
    match op
    case Write(_, _, _, _) => WriteKeeps(s, op);
    case StartFork(_, _) => StartForkKeeps(s, op);
    case Dup(_) => DupKeeps(s, op);
    case DupAgain(_) => DupRestKeeps(s, op);
    case ChildStack(_, _) => DupRestKeeps(s, op);
    case EndFork(_) => EndForkKeeps(s, op);
    case Exit(_) => ExitKeeps(s, op);
    case _ => HandlerKeeps(s, op);
  }
}
