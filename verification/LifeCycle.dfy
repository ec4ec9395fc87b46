/** A whole environment: created, given and stripped of pages in any order, freed. Nothing of it remains. */
module LifeCycle {
  import opened Mmu
  import opened Options
  import opened PageTables
  import opened RefCounts
  import opened Lifetime
  import opened Syscalls

  /** A page system call on the environment whose directory is `d`; `sd` may be any other environment's. */
  datatype Use =
    | Take(va: nat, perm: Perm)
    | Share(sd: nat, srcva: nat, va: nat, perm: Perm)
    | Drop(va: nat)

  /** The other environment exists. */
  predicate Known(s: Phys, use: Use) {
    use.Share? ==> use.sd in s.dirs
  }

  /** The call fails, or fits: flags only (as far as the frame number goes), and room in the count. */
  predicate Proper(s: Phys, d: nat, use: Use) {
    match use
    case Take(va, perm) => SysPageAlloc(s, d, va, perm).code != Ok || s.free == [] || Or(s.free[0], perm.high) == s.free[0]
    case Share(sd, srcva, va, perm) =>
      var pg := PageLookup(s, sd, PageNum(srcva));
      SysPageMap(s, sd, srcva, d, va, perm).code != Ok || pg.None? || Fits(s, d, pg.value, PageNum(va), perm)
    case Drop(_) => true
  }

  function After(s: Phys, d: nat, use: Use): Phys {
    match use
    case Take(va, perm) => SysPageAlloc(s, d, va, perm).s
    case Share(sd, srcva, va, perm) => SysPageMap(s, sd, srcva, d, va, perm).s
    case Drop(va) => SysPageUnmap(s, d, va).s
  }

  /** `s'` has one directory more than `s`, and beyond what that environment refers to, the same references. */
  ghost predicate Confined(s: Phys, s': Phys, d: nat) {
    && Sound(s') && d !in s.dirs
    && s'.dirs == s.dirs + {d} && s'.kdir == s.kdir && s'.reserved == s.reserved && |s'.mem| == |s.mem|
    && forall h :: !OwnedBy(h, d) ==> Target(s', h) == Target(s, h)
  }

  /** Only references of `d` differ. */
  ghost predicate Touches(s: Phys, s': Phys, d: nat) {
    SameSpace(s, s') && forall h :: !OwnedBy(h, d) ==> Target(s', h) == Target(s, h)
  }

  lemma TakeTouches(s: Phys, d: nat, va: nat, perm: Perm)
    requires Sound(s) && d in s.dirs
    ensures Touches(s, SysPageAlloc(s, d, va, perm).s, d)
  {
    if !BadAddress(va) && Has(perm.flags, PTE_U | PTE_P) && s.free != [] {
      var f := s.free[0];
      var a := PageAlloc(s, true).s;
      var ins := PageInsert(a, d, f, PageNum(va), perm);
      NewPageInsertable(s, true);
      UserAddress(va);
      hide Inv, PageInsert, Insertable, PageAlloc;
      InsertKeeps(a, {f}, d, f, PageNum(va), perm);
      if !ins.ok {
        CountsAside(a, PageFree(a, f));
      }
    }
  }

  lemma ShareTouches(s: Phys, sd: nat, srcva: nat, d: nat, va: nat, perm: Perm)
    requires Sound(s) && d in s.dirs && sd in s.dirs
    ensures Touches(s, SysPageMap(s, sd, srcva, d, va, perm).s, d)
  {
    if SysPageMap(s, sd, srcva, d, va, perm).code != Inval {
      UserAddress(srcva);
      UserAddress(va);
      LookedUpInsertable(s, sd, PageNum(srcva));
      hide Inv, PageInsert, Insertable;
      InsertKeeps(s, {}, d, PageLookup(s, sd, PageNum(srcva)).value, PageNum(va), perm);
    }
  }

  lemma DropTouches(s: Phys, d: nat, va: nat)
    requires Sound(s) && d in s.dirs
    ensures Touches(s, SysPageUnmap(s, d, va).s, d)
  {
    if !BadAddress(va) {
      UserAddress(va);
      hide Inv, PageRemove;
      RemoveKeeps(s, {}, {}, d, PageNum(va));
    }
  }

  /** Every use changes references of this environment only; it keeps memory sound exactly if it is proper. */
  lemma UseConfined(s: Phys, s1: Phys, d: nat, use: Use)
    requires Confined(s, s1, d) && Known(s1, use)
    ensures Touches(s1, After(s1, d, use), d)
    ensures Confined(s, After(s1, d, use), d) <==> Proper(s1, d, use)
  {
    assert d in s1.dirs;
    hide Inv, SysPageAlloc, SysPageMap, SysPageUnmap, Fits;
    match use
    case Take(va, perm) =>
      SysPageAllocKeeps(s1, d, va, perm);
      TakeTouches(s1, d, va, perm);
    case Share(sd, srcva, va, perm) =>
      SysPageMapKeeps(s1, sd, srcva, d, va, perm);
      ShareTouches(s1, sd, srcva, d, va, perm);
    case Drop(va) =>
      SysPageUnmapKeeps(s1, d, va);
      DropTouches(s1, d, va);
  }

  /** Freeing it brings every count back, and the free list to the same pages, once each. */
  lemma FreeRestores(s: Phys, s1: Phys, d: nat)
    requires Sound(s) && Confined(s, s1, d)
    ensures var s' := EnvFree(s1, d);
      Sound(s') && s'.dirs == s.dirs && s'.refs == s.refs && (forall p :: p in s'.free <==> p in s.free)
  {
    var s' := EnvFree(s1, d);
    EnvFreeKeeps(s1, d);
    forall h ensures Target(s', h) == Target(s, h) {
    }
    SameCounts(s, s');
  }

  lemma SameCounts(s: Phys, s': Phys)
    requires Sound(s) && Sound(s') && |s'.mem| == |s.mem| && forall h :: Target(s', h) == Target(s, h)
    ensures s'.refs == s.refs && forall p :: p in s'.free <==> p in s.free
  {
    forall p | 0 <= p < |s.refs| ensures s'.refs[p] == s.refs[p] {
      SameReferences(s, s', p);
    }
    forall p ensures p in s'.free <==> p in s.free {
      assert p in s.free ==> p < |s.mem|;
      assert p in s'.free ==> p < |s'.mem|;
    }
  }

  /** `ss` is the history of environment `d` under proper page system calls. */
  ghost predicate History(ss: seq<Phys>, d: nat, uses: seq<Use>) {
    && |ss| == |uses| + 1
    && forall k :: 0 <= k < |uses| ==> Known(ss[k], uses[k]) && Proper(ss[k], d, uses[k]) && ss[k + 1] == After(ss[k], d, uses[k])
  }

  /** env_alloc, any proper page system calls on the new environment, env_free: every page has the count it had
      before, and the same pages are free, once each. A call of env_alloc that finds no memory changes nothing. */
  lemma NothingRemains(s: Phys, ss: seq<Phys>, uses: seq<Use>)
    requires Sound(s)
    requires EnvSetupVm(s).frame.Some? ==> History(ss, EnvSetupVm(s).frame.value, uses) && ss[0] == EnvSetupVm(s).s
    ensures var r := EnvSetupVm(s);
      && (r.frame.None? ==> r.s == s)
      && (r.frame.Some? ==>
            var s' := EnvFree(ss[|uses|], r.frame.value);
            Sound(s') && s'.dirs == s.dirs && s'.refs == s.refs && (forall p :: p in s'.free <==> p in s.free))
  {
    SetupKeeps(s);
    if EnvSetupVm(s).frame.Some? {
      var d := EnvSetupVm(s).frame.value;
      hide EnvSetupVm, EnvFree, Inv, After, Proper;
      assert Confined(s, ss[0], d);
      StaysConfined(s, ss, uses, d);
      FreeRestores(s, ss[|uses|], d);
    }
  }

  lemma {:induction false} StaysConfined(s: Phys, ss: seq<Phys>, uses: seq<Use>, d: nat)
    requires History(ss, d, uses) && Confined(s, ss[0], d)
    ensures Confined(s, ss[|uses|], d)
  {
    hide Confined, After, Known, Proper;
    if uses != [] {
      var n := |uses| - 1;
      assert ss[..n + 1][n] == ss[n];
      StaysConfined(s, ss[..n + 1], uses[..n], d);
      UseConfined(s, ss[n], d, uses[n]);
    }
  }
}
