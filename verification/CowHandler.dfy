/** A complete run of pgfault, and what goes wrong when duppage's calls are made in the other order. */
module CowHandler {
  import opened Mmu
  import opened Options
  import opened CowMemory
  import opened CowInvariant
  import opened CowRefinement
  import opened CowRuns

  /** The first `k` bytes of `page` over a zeroed frame. */
  function Part(page: Page, k: nat): Page {
    seq(PGSIZE, i requires 0 <= i < PGSIZE => if i < k then page[i] else 0)
  }

  predicate CanFault(s: Users, e: nat, pn: nat, f: nat) {
    Enabled(s, Enter(e, pn)) && Fresh(s, f) && Slot(e, TEMP) !in s.pt
  }

  /** pgfault with frame `f` at PFTEMP and `k` bytes copied. */
  function MidCopy(s: Users, e: nat, pn: nat, f: nat, k: nat): Users
    requires CanFault(s, e, pn, f)
  {
    Users(s.pt[Slot(e, TEMP) := PresentEntry(f, WRITE_PERM)],
          s.mem[f := Part(Content(s, s.pt[Slot(e, pn)].frame), k)],
          s.ctl[e := s.ctl[e].(fault := Some(Fault(pn, Copying(k))))])
  }

  /** pgfault's whole effect: a private writable copy in frame `f`. */
  function AfterFault(s: Users, e: nat, pn: nat, f: nat): Users
    requires CanFault(s, e, pn, f)
  {
    s.(pt := s.pt[Slot(e, pn) := PresentEntry(f, WRITE_PERM)],
       mem := s.mem[f := Content(s, s.pt[Slot(e, pn)].frame)])
  }

  lemma FaultBegins(s: Users, e: nat, pn: nat, f: nat)
    requires CanFault(s, e, pn, f)
    ensures var s1 := Apply(s, Enter(e, pn));
      Enabled(s1, TakeFrame(e, f)) && Apply(s1, TakeFrame(e, f)) == MidCopy(s, e, pn, f, 0)
  {
    assert ZeroFrame() == Part(Content(s, s.pt[Slot(e, pn)].frame), 0);
  }

  lemma FaultCopies(s: Users, e: nat, pn: nat, f: nat, k: nat)
    requires CanFault(s, e, pn, f) && k < PGSIZE
    ensures var m := MidCopy(s, e, pn, f, k);
      Enabled(m, CopyByte(e)) && Apply(m, CopyByte(e)) == MidCopy(s, e, pn, f, k + 1)
  {
    var page := Content(s, s.pt[Slot(e, pn)].frame);
    assert pn != TEMP;
    assert Part(page, k)[k := page[k]] == Part(page, k + 1);
  }

  lemma FaultEnds(s: Users, e: nat, pn: nat, f: nat)
    requires CanFault(s, e, pn, f)
    ensures var m := MidCopy(s, e, pn, f, PGSIZE);
      && Enabled(m, MoveFrame(e)) && Enabled(Apply(m, MoveFrame(e)), Leave(e))
      && Apply(Apply(m, MoveFrame(e)), Leave(e)) == AfterFault(s, e, pn, f)
  {
    var page := Content(s, s.pt[Slot(e, pn)].frame);
    assert Part(page, PGSIZE) == page;
    PermFacts(f);
    var t := Apply(Apply(MidCopy(s, e, pn, f, PGSIZE), MoveFrame(e)), Leave(e));
    assert t.pt == AfterFault(s, e, pn, f).pt;
    assert t.mem == AfterFault(s, e, pn, f).mem;
    assert t.ctl == s.ctl;
  }

  // ----- the order of duppage's calls -----

  /** duppage the other way round, with a fault of the parent between the calls. */
  function Reversed(s: Users, e: nat, c: nat, pn: nat, f: nat): Users
    requires Slot(e, pn) in s.pt && CanFault(Mapped(s, Slot(e, pn), Slot(e, pn), COW_PERM), e, pn, f)
  {
    Mapped(AfterFault(Mapped(s, Slot(e, pn), Slot(e, pn), COW_PERM), e, pn, f), Slot(e, pn), Slot(c, pn), COW_PERM)
  }

  /** Marking the parent's page first would not do: a fault in between leaves the parent writing to the child's frame. */
  lemma ReversedLeaks(s: Users, e: nat, c: nat, pn: nat, f: nat, off: nat, v: Byte)
    requires Inv(s) && Forking(s, e) && ChildOf(s, e, c) && s.ctl[e].fork.value.half.None? && pn < STACK_PAGES && off < PGSIZE
    requires Slot(e, pn) in s.pt && (Owned(s.pt[Slot(e, pn)]) || CowOnly(s.pt[Slot(e, pn)])) && Fresh(s, f)
    ensures CanFault(Mapped(s, Slot(e, pn), Slot(e, pn), COW_PERM), e, pn, f)
    ensures var s' := Reversed(s, e, c, pn, f); var store := Write(e, pn, off, v);
      && !CowInvariant.Private(s') && Enabled(s', store)
      && Slot(c, pn) in s'.pt && Content(Apply(s', store), s'.pt[Slot(c, pn)].frame)[off] == v
  {
    var mine, theirs := Slot(e, pn), Slot(c, pn);
    assert Standing(s, e);
    PermFacts(s.pt[mine].frame);
    PermFacts(f);
    var s' := Reversed(s, e, c, pn, f);
    assert SameFrame(s', mine, theirs) && Owned(s'.pt[mine]);
    assert theirs in s'.pt && mine in s'.pt;
    assert s'.ctl == s.ctl && !Twins(s', mine, theirs);
  }

  // ----- a fault between duppage's calls, in the right order -----

  /** The states of pgfault's byte copies from the k-th on. */
  lemma {:induction false} CopyRun(s: Users, e: nat, pn: nat, f: nat, k: nat) returns (ss: seq<Users>, ops: seq<Op>)
    requires CanFault(s, e, pn, f) && k <= PGSIZE
    ensures Run(ss, ops) && ss[0] == MidCopy(s, e, pn, f, k) && ss[|ops|] == MidCopy(s, e, pn, f, PGSIZE)
    ensures forall i :: 0 <= i < |ops| ==> ops[i] == CopyByte(e)
    decreases PGSIZE - k
  {
    if k == PGSIZE {
      ss, ops := [MidCopy(s, e, pn, f, k)], [];
    } else {
      FaultCopies(s, e, pn, f, k);
      var rest, moves := CopyRun(s, e, pn, f, k + 1);
      hide MidCopy, Enabled, Apply;
      ss, ops := [MidCopy(s, e, pn, f, k)] + rest, [CopyByte(e)] + moves;
    }
  }

  lemma Joined(ss: seq<Users>, ops: seq<Op>, ss': seq<Users>, ops': seq<Op>)
    requires |ss| == |ops| + 1 && |ss'| == |ops'| + 1 && ss[|ops|] == ss'[0] && Run(ss, ops) && Run(ss', ops')
    ensures Run(ss + ss'[1..], ops + ops') && (ss + ss'[1..])[|ops + ops'|] == ss'[|ops'|]
  {
    hide Enabled, Apply;
    var all, moves := ss + ss'[1..], ops + ops';
    forall k | 0 <= k < |moves| ensures Enabled(all[k], moves[k]) && all[k + 1] == Apply(all[k], moves[k]) {
      if k >= |ops| {
        assert all[k] == ss'[k - |ops|] && all[k + 1] == ss'[k - |ops| + 1] && moves[k] == ops'[k - |ops|];
      }
    }
  }

  /** The whole handler as a run. */
  lemma FaultRun(s: Users, e: nat, pn: nat, f: nat) returns (ss: seq<Users>, ops: seq<Op>)
    requires CanFault(s, e, pn, f)
    ensures Run(ss, ops) && ss[0] == s && ss[|ops|] == AfterFault(s, e, pn, f)
    ensures forall i :: 0 <= i < |ops| ==> InHandler(ops[i])
  {
    FaultBegins(s, e, pn, f);
    FaultEnds(s, e, pn, f);
    assert Enabled(s, Enter(e, pn));
    var s1 := Apply(s, Enter(e, pn));
    var m, m' := MidCopy(s, e, pn, f, 0), MidCopy(s, e, pn, f, PGSIZE);
    var first, last := [s, s1, m], [m', Apply(m', MoveFrame(e)), AfterFault(s, e, pn, f)];
    hide CanFault, MidCopy, AfterFault, Enabled, Apply;
    assert Run(first, [Enter(e, pn), TakeFrame(e, f)]);
    assert Run(last, [MoveFrame(e), Leave(e)]);
    var middle, copies := CopyRun(s, e, pn, f, 0);
    Joined(first, [Enter(e, pn), TakeFrame(e, f)], middle, copies);
    ss, ops := first + middle[1..], [Enter(e, pn), TakeFrame(e, f)] + copies;
    Joined(ss, ops, last, [MoveFrame(e), Leave(e)]);
    ss, ops := ss + last[1..], ops + [MoveFrame(e), Leave(e)];
  }

  /** Whenever fork comes to a page that is copy-on-write already, its stack say, a fault between the two calls is
      possible, and parent and child then end up on different frames. */
  lemma RacedDuppage(s: Users, e: nat, f: nat) returns (ss: seq<Users>, ops: seq<Op>)
    requires Inv(s) && DupsPage(s, e) && !Writable(s.pt[Slot(e, s.ctl[e].fork.value.next)]) && Fresh(s, f)
    ensures |ss| == |ops| + 1 && Run(ss, ops) && ss[0] == Apply(s, Dup(e)) && Enabled(ss[|ops|], DupAgain(e))
    ensures forall k :: 0 <= k < |ops| ==> InHandler(ops[k])
    ensures var fork := s.ctl[e].fork.value;
      BothCow(Apply(ss[|ops|], DupAgain(e)), Slot(e, fork.next), Slot(fork.child, fork.next), false)
  {
    var fork := s.ctl[e].fork.value;
    var s1 := Apply(s, Dup(e));
    StepKeeps(s, Dup(e));
    RacedStart(s, e, f);
    ss, ops := FaultRun(s1, e, fork.next, f);
    RacedEnd(s, e, f);
  }

  lemma RacedStart(s: Users, e: nat, f: nat)
    requires Inv(s) && DupsPage(s, e) && !Writable(s.pt[Slot(e, s.ctl[e].fork.value.next)]) && Fresh(s, f)
    ensures CanFault(Apply(s, Dup(e)), e, s.ctl[e].fork.value.next, f)
  {
    hide Inv, Pages, Controls;
    InvParts(s, e);
    PermFacts(s.pt[Slot(e, s.ctl[e].fork.value.next)].frame);
  }

  lemma RacedEnd(s: Users, e: nat, f: nat)
    requires Inv(s) && DupsPage(s, e) && !Writable(s.pt[Slot(e, s.ctl[e].fork.value.next)]) && Fresh(s, f)
    requires CanFault(Apply(s, Dup(e)), e, s.ctl[e].fork.value.next, f)
    ensures var fork := s.ctl[e].fork.value; var s' := AfterFault(Apply(s, Dup(e)), e, fork.next, f);
      Enabled(s', DupAgain(e)) && BothCow(Apply(s', DupAgain(e)), Slot(e, fork.next), Slot(fork.child, fork.next), false)
  {
    hide Inv, Pages, Controls;
    InvParts(s, e);
    PermFacts(s.pt[Slot(e, s.ctl[e].fork.value.next)].frame);
    PermFacts(f);
  }

  /** One environment with a single page, copy-on-write since an earlier fork. */
  function Lone(): Users {
    Users(map[Slot(1, 0) := PresentEntry(5, COW_PERM)], map[], map[1 := Control(None, None, None)])
  }

  lemma LoneForks()
    ensures Inv(Lone()) && Enabled(Lone(), StartFork(1, 2))
    ensures var s := Apply(Lone(), StartFork(1, 2));
      && Inv(s) && DupsPage(s, 1) && s.ctl[1].fork == Some(Fork(2, 0, None))
      && !Writable(s.pt[Slot(1, 0)]) && Fresh(s, 6)
  {
    hide Inv;
    LoneStands();
    StepKeeps(Lone(), StartFork(1, 2));
    PermFacts(5);
    hide Has;
  }

  lemma LoneStands()
    ensures Inv(Lone()) && Enabled(Lone(), StartFork(1, 2))
  {
    hide Inv;
    PermFacts(5);
    PrivateStart(Lone());
  }

  /** It forks, faults between duppage's two calls, and the two sides of that page end up on different frames. */
  lemma DuppageRaces() returns (ss: seq<Users>, ops: seq<Op>)
    ensures |ss| == |ops| + 1 && Run(ss, ops) && ss[0] == Lone() && Inv(ss[0])
    ensures |ops| > 2 && ops[..2] == [StartFork(1, 2), Dup(1)] && ops[|ops| - 1] == DupAgain(1)
    ensures BothCow(ss[|ops|], Slot(1, 0), Slot(2, 0), false)
  {
    hide Apply, BothCow, Inv, Lone, DupsPage, Writable, Fresh;
    LoneForks();
    var s := Apply(Lone(), StartFork(1, 2));
    DupsEnabled(s, 1);
    hide Enabled;
    var middle, moves := RacedDuppage(s, 1, 6);
    hide Run;
    OneStep(Lone(), StartFork(1, 2));
    OneStep(s, Dup(1));
    OneStep(middle[|moves|], DupAgain(1));
    Joined([Lone(), s], [StartFork(1, 2)], [s, Apply(s, Dup(1))], [Dup(1)]);
    ss, ops := [Lone(), s] + [s, Apply(s, Dup(1))][1..], [StartFork(1, 2)] + [Dup(1)];
    Joined(ss, ops, middle, moves);
    ss, ops := ss + middle[1..], ops + moves;
    Joined(ss, ops, [middle[|moves|], Apply(middle[|moves|], DupAgain(1))], [DupAgain(1)]);
    ss, ops := ss + [middle[|moves|], Apply(middle[|moves|], DupAgain(1))][1..], ops + [DupAgain(1)];
  }

  lemma DupsEnabled(s: Users, e: nat)
    requires DupsPage(s, e)
    ensures Enabled(s, Dup(e))
  {
  }

  lemma OneStep(s: Users, op: Op)
    requires Enabled(s, op)
    ensures Run([s, Apply(s, op)], [op])
  {
  }

  // ----- shared pages -----

  /** A PTE_SHARE page reaches the child exactly if the parent may write to it: sys_page_map refuses PTE_SYSCALL,
      which asks for write access, on a read-only page, and duppage ignores the refusal. */
  lemma ShareInheritedIff(s: Users, e: nat, fork: Fork)
    requires Slot(e, fork.next) in s.pt && User(s.pt[Slot(e, fork.next)]) && Share(s.pt[Slot(e, fork.next)])
    requires Slot(fork.child, fork.next) !in s.pt
    ensures Slot(fork.child, fork.next) in DupFirst(s, e, fork).pt <==> Writable(s.pt[Slot(e, fork.next)])
  {
    PermFacts(0);
  }

  /** Such a page: one that an environment has mapped PTE_SHARE and read-only into itself, which sys_page_map allows. Its
      child does without it. */
  lemma SharedReadOnly(s: Users, e: nat, c: nat)
    requires Slot(e, 1) in s.pt && c != e && Slot(c, 0) !in s.pt
    ensures var mapped := SysMap(s, Slot(e, 1), Slot(e, 0), PTE_SHARE | PTE_U | PTE_P);
      && mapped.Some? && Share(mapped.value.pt[Slot(e, 0)])
      && Slot(c, 0) !in DupFirst(mapped.value, e, Fork(c, 0, None)).pt
  {
    var f := s.pt[Slot(e, 1)].frame;
    SharePerm(f);
    var u := SysMap(s, Slot(e, 1), Slot(e, 0), PTE_SHARE | PTE_U | PTE_P).value;
    ShareInheritedIff(u, e, Fork(c, 0, None));
  }

  lemma SharePerm(f: nat)
    ensures var e := PresentEntry(f, PTE_SHARE | PTE_U | PTE_P); User(e) && Share(e) && !Writable(e)
    ensures Has(PTE_SHARE | PTE_U | PTE_P, PTE_U | PTE_P) && !Has(PTE_SHARE | PTE_U | PTE_P, PTE_W)
  {
  }

  /** The invariant can start anywhere that no two pages share a frame and nobody is forking or faulting. */
  lemma PrivateStart(s: Users)
    requires Mapping(s) && forall k :: k in s.pt ==> !Share(s.pt[k]) && k.pn != TEMP
    requires forall k, k' {:trigger k in s.pt, k' in s.pt} :: SameFrame(s, k, k') ==> k == k'
    requires forall e :: e in s.ctl ==> s.ctl[e] == Control(None, None, None)
    ensures Inv(s)
  {
  }
}
