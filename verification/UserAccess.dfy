/** user_mem_check against the hardware: it looks at page-table entries alone, the MMU also at the directory's permissions.
    Over every run the two agree, outside the UVPT window. */
module UserAccess {
  import opened Mmu
  import opened Options
  import opened PageTables
  import opened RefCounts
  import opened AddressSpaces
  import opened Lifetime
  import opened Syscalls
  import opened Tlb
  import opened Machine
  import BT = Boot
  import UM = UserMem

  const WIDE: Flags := 0x007

  /** Every directory slot but UVPT's leaves the choice to the page table. */
  ghost predicate Wide(s: Phys) {
    forall d, i: nat {:trigger Word(s, d, i)} :: Directory(s, d) && i < NPDENTRIES && i != PDX_UVPT && Present(Word(s, d, i))
      ==> Has(Word(s, d, i).flags, WIDE)
  }

  /** The access with all bits of `perm` that the MMU grants. */
  predicate Grants(s: Phys, d: nat, pn: nat, perm: Flags) {
    var x := Translate(s, d, pn);
    x.Some? && Has(x.value.dirFlags, perm) && Has(x.value.entry.flags, perm)
  }

  lemma WithinWide(flags: Flags, perm: Flags)
    requires Has(WIDE, perm) && Has(flags, WIDE)
    ensures Has(flags, perm)
  {
  }

  /** For any of the present, write and user bits: user_mem_check passes a page exactly if it is below ULIM and the MMU
      grants that access. */
  lemma CheckAgrees(s: Phys, d: nat, pn: nat, perm: Flags)
    requires Wide(s) && Directory(s, d) && pn < ALL_PAGES && Pdx(pn) != PDX_UVPT && Has(WIDE, perm)
    ensures UM.Accessible(s, d, pn, perm) <==> pn * PGSIZE < ULIM && Grants(s, d, pn, perm)
  {
    var pde := Word(s, d, Pdx(pn));
    if Present(pde) {
      WithinWide(pde.flags, perm);
    }
  }

  /** In the window it does not: there the check would pass a writable user page table, which the MMU lets nobody write. */
  lemma WindowDisagrees(s: Phys, d: nat, i: nat)
    requires KernelHalf(s) && Directory(s, d) && i < NPDENTRIES && Present(Word(s, d, i)) && Has(Word(s, d, i).flags, WIDE)
    ensures UM.Accessible(s, d, PageAt(PDX_UVPT, i), PTE_W) && !Grants(s, d, PageAt(PDX_UVPT, i), PTE_W)
  {
    PageSplit(PageAt(PDX_UVPT, i), PDX_UVPT, i);
    assert Word(s, d, PDX_UVPT) == PresentEntry(d, PTE_U);
  }

  // ----- every operation keeps it -----

  /** No directory word became both present and narrow. */
  lemma StillWide(s: Phys, s': Phys)
    requires Wide(s) && s'.kdir == s.kdir && s'.dirs <= s.dirs
    requires forall d, i: nat {:trigger Word(s', d, i)} :: Directory(s, d) ==>
      Word(s', d, i) == Word(s, d, i) || !Present(Word(s', d, i)) || Has(Word(s', d, i).flags, WIDE)
    ensures Wide(s')
  {
  }

  lemma NewTableWide(t: nat)
    ensures Has(PresentEntry(t, PTE_U | PTE_W).flags, WIDE)
  {
  }

  lemma AllocWide(s: Phys, zero: bool)
    requires Sound(s) && Wide(s)
    ensures Wide(PageAlloc(s, zero).s)
  {
    if s.free != [] {
      AllocKeeps(s, {}, {}, zero);
      FreeNoDirectory(s, s.free[0]);
      var s' := PageAlloc(s, zero).s;
      hide Inv, Wide;
      StillWide(s, s');
    }
  }

  lemma FreeNoDirectory(s: Phys, f: nat)
    requires Sound(s) && f in s.free
    ensures !Directory(s, f)
  {
    Unreferenced(s, {}, {}, f);
    assert Target(s, Dir(f)) != Some(f) && Target(s, Boot(f)) != Some(f);
  }

  lemma WalkWords(s: Phys, loose: set<nat>, d: nat, pn: nat)
    requires Inv(s, loose, {}) && d in s.dirs && pn < USER_PAGES
    ensures var s' := PgdirWalk(s, d, pn, true).s;
      forall f, k: nat {:trigger Word(s', f, k)} :: Directory(s, f) ==>
        Word(s', f, k) == Word(s, f, k) || !Present(Word(s', f, k)) || Has(Word(s', f, k).flags, WIDE)
  {
    if !Present(Word(s, d, Pdx(pn))) && s.free != [] {
      NewTableWide(s.free[0]);
      var t := s.free[0];
      assert t in s.free;
      Unreferenced(s, loose, {}, t);
      assert forall f: nat :: Directory(s, f) ==> f != t by {
        forall f: nat | Directory(s, f) ensures f != t {
          assert Target(s, Dir(f)) != Some(t) && Target(s, Boot(f)) != Some(t);
        }
      }
      hide Inv;
    }
  }

  lemma InsertWide(s: Phys, loose: set<nat>, d: nat, pp: nat, pn: nat, perm: Perm)
    requires Inv(s, loose, {}) && Wide(s) && d in s.dirs && pn < USER_PAGES
    ensures Wide(PageInsert(s, d, pp, pn, perm).s)
  {
    var w := PgdirWalk(s, d, pn, true);
    WalkKeeps(s, loose, {}, d, pn);
    WalkWords(s, loose, d, pn);
    hide Inv, Wide, PgdirWalk;
    StillWide(s, w.s);
    if w.frame.Some? {
      InsertAfterWalk(s, d, pp, pn, perm);
      InWalked(w.s, loose, d, pp, pn, perm);
    } else {
      Unwalked(s, d, pp, pn, perm);
    }
  }

  lemma Unwalked(s: Phys, d: nat, pp: nat, pn: nat, perm: Perm)
    requires PgdirWalk(s, d, pn, true).frame.None?
    ensures PageInsert(s, d, pp, pn, perm).s == s
  {
  }

  lemma InWalked(s: Phys, loose: set<nat>, d: nat, pp: nat, pn: nat, perm: Perm)
    requires Inv(s, loose, {}) && Wide(s) && d in s.dirs && pn < USER_PAGES && Present(Word(s, d, Pdx(pn)))
    ensures Wide(PageInsert(s, d, pp, pn, perm).s)
  {
    InsertRetargets(s, d, pp, pn, perm);
    var r := PageInsert(s, d, pp, pn, perm).s;
    hide Inv, Wide, PageInsert;
    StillWide(s, r);
  }

  lemma RemoveWide(s: Phys, d: nat, pn: nat)
    requires Sound(s) && Wide(s) && d in s.dirs && pn < USER_PAGES
    ensures Wide(PageRemove(s, d, pn))
  {
    RemoveKeeps(s, {}, {}, d, pn);
    hide Inv, Wide, PageRemove;
    StillWide(s, PageRemove(s, d, pn));
  }

  lemma SetupWide(s: Phys)
    requires Sound(s) && Wide(s)
    ensures Wide(EnvSetupVm(s).s)
  {
    SetupKeeps(s);
    if EnvSetupVm(s).frame.Some? {
      var s', d := EnvSetupVm(s).s, EnvSetupVm(s).frame.value;
      GainsWide(s, s', d);
    }
  }

  lemma GainsWide(s: Phys, s': Phys, d: nat)
    requires Gains(s, s', d) && Wide(s)
    ensures Wide(s')
  {
  }

  lemma DropTableWide(s: Phys, d: nat, i: nat)
    requires Wide(s)
    ensures Wide(DropTable(s, d, i))
  {
    var s' := DropTable(s, d, i);
    assert forall f, k: nat :: Word(s', f, k) == Word(s, f, k) || Word(s', f, k) == ABSENT;
  }

  lemma {:induction false} UnmapWide(s: Phys, d: nat, i: nat, j: nat)
    requires Sound(s) && Wide(s) && d in s.dirs && i < PDX_UTOP && Present(Word(s, d, i))
    ensures Wide(UnmapFrom(s, d, i, j))
    decreases NPTENTRIES - j
  {
    if j < NPTENTRIES {
      var s1 := if Present(Word(s, Word(s, d, i).frame, j)) then PageRemove(s, d, PageAt(i, j)) else s;
      UnmapStep(s, d, i, j);
      PageSplit(PageAt(i, j), i, j);
      hide Wide, PageRemove, Inv;
      RemoveWide(s, d, PageAt(i, j));
      UnmapWide(s1, d, i, j + 1);
    }
  }

  lemma {:induction false} FreeTablesWide(s: Phys, d: nat, i: nat)
    requires Sound(s) && Wide(s) && d in s.dirs
    ensures Wide(FreeTablesFrom(s, d, i))
    decreases PDX_UTOP - i
  {
    if i < PDX_UTOP {
      hide Wide, Inv;
      if Present(Word(s, d, i)) {
        UnmapWide(s, d, i, 0);
        DropTableWide(UnmapFrom(s, d, i, 0), d, i);
        FreeTableStep(s, d, i);
        FreeTablesWide(DropTable(UnmapFrom(s, d, i, 0), d, i), d, i + 1);
      } else {
        FreeTablesWide(s, d, i + 1);
      }
    }
  }

  lemma FreeWide(s: Phys, d: nat)
    requires Sound(s) && Wide(s) && d in s.dirs
    ensures Wide(EnvFree(s, d))
  {
    FreeTablesWide(s, d, 0);
    DropDirectoryWide(FreeTablesFrom(s, d, 0), d);
  }

  lemma DropDirectoryWide(s: Phys, d: nat)
    requires Wide(s)
    ensures Wide(DropDirectory(s, d))
  {
    var s' := DropDirectory(s, d);
    assert s'.mem == s.mem && s'.kdir == s.kdir && s'.dirs == s.dirs - {d};
    assert forall f, k: nat :: Word(s', f, k) == Word(s, f, k);
  }

  // ----- and every run -----

  lemma AllocCallWide(s: Phys, d: nat, va: nat, perm: Perm)
    requires Sound(s) && Wide(s) && d in s.dirs
    ensures Wide(SysPageAlloc(s, d, va, perm).s)
  {
    if !BadAddress(va) && Has(perm.flags, PTE_U | PTE_P) && s.free != [] {
      var a, f := PageAlloc(s, true).s, s.free[0];
      AllocWide(s, true);
      NewPageInsertable(s, true);
      UserAddress(va);
      hide Inv, PageInsert, PageAlloc, Insertable, Wide;
      InsertWide(a, {f}, d, f, PageNum(va), perm);
      GivenBack(PageInsert(a, d, f, PageNum(va), perm).s, f);
    }
  }

  lemma GivenBack(s: Phys, p: nat)
    requires Wide(s)
    ensures Wide(PageFree(s, p))
  {
    CountsAside(s, PageFree(s, p));
  }

  lemma MapCallWide(s: Phys, sd: nat, srcva: nat, d: nat, va: nat, perm: Perm)
    requires Sound(s) && Wide(s) && sd in s.dirs && d in s.dirs
    ensures Wide(SysPageMap(s, sd, srcva, d, va, perm).s)
  {
    if SysPageMap(s, sd, srcva, d, va, perm).code != Inval {
      UserAddress(va);
      hide Inv, Wide, PageInsert;
      InsertWide(s, {}, d, PageLookup(s, sd, PageNum(srcva)).value, PageNum(va), perm);
    }
  }

  /** Allowed or not, no step makes a directory slot narrow. */
  lemma StepWide(m: Mach, op: Op, m': Mach)
    requires Safe(m) && Wide(m.s) && Step(m, op, m')
    ensures Wide(m'.s)
  {
    assert Sound(m.s);
    hide Inv, Wide, SysPageAlloc, SysPageMap, EnvSetupVm, EnvFree, PageRemove, InsertTlb, RemoveTlb, Fills;
    match op
    case Alloc(d, va, perm) => AllocCallWide(m.s, d, va, perm);
    case Map(sd, srcva, d, va, perm) => MapCallWide(m.s, sd, srcva, d, va, perm);
    case Unmap(d, va) =>
      if !BadAddress(va) {
        UserAddress(va);
        RemoveWide(m.s, d, PageNum(va));
      }
    case Create => SetupWide(m.s);
    case Destroy(d) => FreeWide(m.s, d);
    case _ =>
  }

  /** In every state of every run of allowed calls, user_mem_check's test of a page tells what the MMU would do. */
  lemma {:induction false} RunsAgree(ms: seq<Mach>, ops: seq<Op>)
    requires |ms| == |ops| + 1 && Safe(ms[0]) && Wide(ms[0].s)
    requires forall k :: 0 <= k < |ops| ==> Step(ms[k], ops[k], ms[k + 1]) && Allowed(ms[k], ops[k])
    ensures Wide(ms[|ops|].s)
    ensures var s := ms[|ops|].s;
      forall d, pn: nat, perm :: d in s.dirs && pn < ALL_PAGES && Pdx(pn) != PDX_UVPT && Has(WIDE, perm) ==>
        (UM.Accessible(s, d, pn, perm) <==> pn * PGSIZE < ULIM && Grants(s, d, pn, perm))
  {
    hide Safe, Step, Allowed, Wide;
    if ops != [] {
      var n := |ops| - 1;
      assert ms[..n + 1][n] == ms[n];
      RunsAgree(ms[..n + 1], ops[..n]);
      RunsAreSafe(ms, ops);
      StepWide(ms[n], ops[n], ms[n + 1]);
    }
    var s := ms[|ops|].s;
    hide UM.Accessible, Grants;
    forall d, pn: nat, perm | d in s.dirs && pn < ALL_PAGES && Pdx(pn) != PDX_UVPT && Has(WIDE, perm)
      ensures UM.Accessible(s, d, pn, perm) <==> pn * PGSIZE < ULIM && Grants(s, d, pn, perm)
    {
      CheckAgrees(s, d, pn, perm);
    }
  }

  /** page_init and boot_map_region start that way. */
  lemma BootWide(s: Phys, kernelEnd: nat)
    requires BT.AfterPageInit(s, kernelEnd)
    ensures Wide(s)
  {
  }

  lemma BootMapWide(s: Phys, pn: nat, frame: nat, perm: Flags)
    requires Sound(s) && s.dirs == {} && Wide(s) && BT.KernelPage(pn)
    ensures var r := BT.BootMapPage(s, pn, frame, perm); r.Some? ==> Wide(r.value)
  {
    var w := PgdirWalk(s, s.kdir, pn, true);
    BT.KernelWalk(s, pn);
    if w.frame.Some? {
      BT.KernelStore(w.s, pn, PresentEntry(frame, perm));
      NewTableWide(w.frame.value);
      assert w.s != s ==> Word(w.s, s.kdir, Pdx(pn)) == PresentEntry(w.frame.value, PTE_U | PTE_W);
      hide Inv, PgdirWalk;
    }
  }
}
