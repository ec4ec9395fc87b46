/** The page system calls keep the memory invariant, and failing ones change nothing a user can see. */
module Syscalls {
  import opened Mmu
  import opened Options
  import opened PageTables
  import opened RefCounts
  import opened AddressSpaces
  import opened DataPages

  lemma UserAddress(va: nat)
    requires va < UTOP
    ensures PageNum(va) < USER_PAGES
  {
  }

  /** A mapped user page is data, so it may be mapped again. */
  lemma LookedUpInsertable(s: Phys, d: nat, pn: nat)
    requires Sound(s) && d in s.dirs && pn < USER_PAGES && PageLookup(s, d, pn).Some?
    ensures Insertable(s, PageLookup(s, d, pn).value)
  {
    var p := PageLookup(s, d, pn).value;
    var h := Pte(d, Pdx(pn), Ptx(pn));
    UserPage(pn);
    assert Target(s, h) == Some(p);
    assert h in Holders(s, p);
  }

  /** The page that page_alloc has taken off the list is ready to be mapped. */
  lemma NewPageInsertable(s: Phys, zero: bool)
    requires Sound(s)
    ensures s.free != [] ==> var a := PageAlloc(s, zero).s; var f := s.free[0];
      && f < |s.mem| && Inv(a, {f}, {}) && Insertable(a, f) && Room(a, f) && {f} - {f} == {}
      && |a.refs| == |s.refs| && a.refs[f] == 0 && SameSpace(s, a)
      && (forall h :: Target(a, h) == Target(s, h)) && a.free == s.free[1..]
  {
    if s.free != [] {
      AllocKeeps(s, {}, {}, zero);
      assert {} + {s.free[0]} == {s.free[0]};
    }
  }

  /** The page handed out is zero, every word of it, and no word of any mapped page changes. */
  lemma SysPageAllocZeroes(s: Phys, d: nat, va: nat, perm: Perm)
    requires Sound(s) && d in s.dirs
    ensures var r := SysPageAlloc(s, d, va, perm);
      && DataKept(s, r.s)
      && (r.code == Ok ==> s.free != [] && Blank(r.s, s.free[0]))
  {
    if !BadAddress(va) && Has(perm.flags, PTE_U | PTE_P) && s.free != [] {
      var a, f := PageAlloc(s, true).s, s.free[0];
      UserAddress(va);
      AllocZeroes(s);
      NewPageStaysZero(s, d, PageNum(va), perm);
      AllocInsertKeepsData(s, true, d, PageNum(va), perm);
      var ins := PageInsert(a, d, f, PageNum(va), perm);
      hide Inv, PageInsert, PageAlloc;
      if !ins.ok {
        GivenBackData(s, ins.s, f);
      }
    }
  }

  lemma GivenBackData(s: Phys, s': Phys, f: nat)
    requires DataKept(s, s')
    ensures DataKept(s, PageFree(s', f))
  {
    hide Data;
  }

  /** The result codes, for every argument. */
  lemma SysPageAllocCodes(s: Phys, d: nat, va: nat, perm: Perm)
    requires Sound(s) && d in s.dirs
    ensures var r := SysPageAlloc(s, d, va, perm);
      var table := Present(Word(s, d, Pdx(PageNum(va))));
      && (r.code == Inval <==> va >= UTOP || va % PGSIZE != 0 || !Has(perm.flags, PTE_U) || !Has(perm.flags, PTE_P))
      && (r.code == NoMem <==> r.code != Inval && |s.free| < if table then 1 else 2)
  {
    BothBits(perm.flags);
    if !BadAddress(va) && Has(perm.flags, PTE_U | PTE_P) && s.free != [] {
      UserAddress(va);
      AllocKeeps(s, {}, {}, true);
      UserPage(PageNum(va));
      hide Inv;
      assert Word(PageAlloc(s, true).s, d, Pdx(PageNum(va))) == Word(s, d, Pdx(PageNum(va)));
    }
  }

  lemma BothBits(flags: Flags)
    ensures Has(flags, PTE_U | PTE_P) <==> Has(flags, PTE_U) && Has(flags, PTE_P)
  {
  }

  lemma SysPageMapCodes(s: Phys, sd: nat, srcva: nat, dd: nat, dstva: nat, perm: Perm)
    ensures var r := SysPageMap(s, sd, srcva, dd, dstva, perm); var pg := PageLookup(s, sd, PageNum(srcva));
      && (r.code == Inval <==>
            || srcva >= UTOP || srcva % PGSIZE != 0 || dstva >= UTOP || dstva % PGSIZE != 0
            || pg == None || !Has(perm.flags, PTE_U) || !Has(perm.flags, PTE_P)
            || (Has(perm.flags, PTE_W) && !Has(LookupFlags(s, sd, PageNum(srcva)), PTE_W)))
      && (r.code == NoMem <==> r.code != Inval && !Present(Word(s, dd, Pdx(PageNum(dstva)))) && s.free == [])
  {
    BothBits(perm.flags);
    hide PageLookup, LookupFlags;
  }

  lemma SysPageAllocSound(s: Phys, d: nat, va: nat, perm: Perm)
    requires Sound(s) && d in s.dirs
    ensures var r := SysPageAlloc(s, d, va, perm);
      && SameSpace(s, r.s)
      && (r.code == NoMem && s.free != [] ==> r.s == s.(mem := s.mem[s.free[0] := ZeroPage()]))
      && (r.code != Ok && (r.code == Inval || s.free == []) ==> r.s == s)
      && (r.code == Ok ==> s.free != [])
      && (Sound(r.s) <==> r.code != Ok || Or(s.free[0], perm.high) == s.free[0])
  {
    if !BadAddress(va) && Has(perm.flags, PTE_U | PTE_P) && s.free != [] {
      var f := s.free[0];
      var a := PageAlloc(s, true).s;
      NewPageInsertable(s, true);
      UserAddress(va);
      InsertKeeps(a, {f}, d, f, PageNum(va), perm);
      var ins := PageInsert(a, d, f, PageNum(va), perm);
      if !ins.ok {
        assert s.free == [f];
        ZeroedKeeps(s, PageFree(a, f), f);
      }
    }
  }

  /** sys_page_alloc: out of memory or with bad arguments it changes at most the contents of a free page. When it
      succeeds, the page handed out is zero, no mapped page's contents have changed, and memory stays sound exactly if the
      bits of `perm` above the flags leave the frame number alone. */
  lemma SysPageAllocKeeps(s: Phys, d: nat, va: nat, perm: Perm)
    requires Sound(s) && d in s.dirs
    ensures var r := SysPageAlloc(s, d, va, perm);
      && SameSpace(s, r.s)
      && (r.code == NoMem && s.free != [] ==> r.s == s.(mem := s.mem[s.free[0] := ZeroPage()]))
      && (r.code != Ok && (r.code == Inval || s.free == []) ==> r.s == s)
      && (r.code == Ok ==> s.free != [])
      && (Sound(r.s) <==> r.code != Ok || Or(s.free[0], perm.high) == s.free[0])
      && (r.code == Ok ==> Blank(r.s, s.free[0]))
      && DataKept(s, r.s)
  {
    SysPageAllocSound(s, d, va, perm);
    SysPageAllocZeroes(s, d, va, perm);
    hide *;
  }

  lemma ZeroedKeeps(s: Phys, s': Phys, f: nat)
    requires Sound(s) && s.free == [f] && f < |s.mem| && s' == s.(mem := s.mem[f := ZeroPage()])
    ensures Sound(s')
  {
    assert f in s.free;
    Unreferenced(s, {}, {}, f);
    UnreferencedFrame(s, f, ZeroPage());
    forall p | 0 <= p < |s.mem| ensures Holders(s', p) == Holders(s, p) {
      SameReferences(s, s', p);
    }
    SameTopLevel(s, s');
  }

  /** sys_page_map: write access is never gained, and on any error nothing changes. When it succeeds, memory stays
      sound exactly if the looked-up page fits: its count has room or it was mapped there already, and the bits of
      `perm` above the flags leave its frame number alone. */
  lemma SysPageMapKeeps(s: Phys, sd: nat, srcva: nat, dd: nat, dstva: nat, perm: Perm)
    requires Sound(s) && sd in s.dirs && dd in s.dirs
    ensures var r := SysPageMap(s, sd, srcva, dd, dstva, perm); var pg := PageLookup(s, sd, PageNum(srcva));
      && SameSpace(s, r.s)
      && (r.code != Ok ==> r.s == s)
      && (r.code == Ok ==>
            && pg.Some?
            && PageLookup(r.s, dd, PageNum(dstva)) == Some(Or(pg.value, perm.high))
            && LookupFlags(r.s, dd, PageNum(dstva)) == PresentEntry(0, perm.flags).flags
            && (Has(perm.flags, PTE_W) ==> Has(LookupFlags(s, sd, PageNum(srcva)), PTE_W)))
      && (Sound(r.s) <==> r.code != Ok || Fits(s, dd, pg.value, PageNum(dstva), perm))
      && DataKept(s, r.s)
  {
    if !BadAddress(srcva) && !BadAddress(dstva) && PageLookup(s, sd, PageNum(srcva)).Some? {
      UserAddress(srcva);
      UserAddress(dstva);
      var p := PageLookup(s, sd, PageNum(srcva)).value;
      LookupInRange(s, sd, PageNum(srcva));
      LookedUpInsertable(s, sd, PageNum(srcva));
      assert {} - {p} == {};
      hide DataKept;
      InsertKeepsData(s, dd, p, PageNum(dstva), perm);
      InsertKeeps(s, {}, dd, p, PageNum(dstva), perm);
    }
  }

  /** perm == 0x1007: the system call allocates an even frame and maps its odd neighbour. */
  lemma NeighbourMapped(s: Phys, d: nat, va: nat)
    requires Sound(s) && d in s.dirs && !BadAddress(va) && s.free != [] && s.free[0] % 2 == 0
    requires SysPageAlloc(s, d, va, Perm(1, 0x007)).code == Ok
    ensures !Sound(SysPageAlloc(s, d, va, Perm(1, 0x007)).s)
    ensures PageLookup(SysPageAlloc(s, d, va, Perm(1, 0x007)).s, d, PageNum(va)) == Some(s.free[0] + 1)
  {
    var f := s.free[0];
    var a := PageAlloc(s, true).s;
    SysPageAllocKeeps(s, d, va, Perm(1, 0x007));
    OrOne(f);
    NewPageInsertable(s, true);
    UserAddress(va);
    hide Inv, Insertable;
    InsertKeeps(a, {f}, d, f, PageNum(va), Perm(1, 0x007));
  }

  /** A page mapped 65535 times and mapped once more somewhere else has a count of zero. */
  lemma FullCountWraps(s: Phys, sd: nat, srcva: nat, dd: nat, dstva: nat)
    requires Sound(s) && sd in s.dirs && dd in s.dirs
    requires var pg := PageLookup(s, sd, PageNum(srcva));
      pg.Some? && pg.value < |s.refs| && s.refs[pg.value] == 65535 && PageLookup(s, dd, PageNum(dstva)) != pg
    requires SysPageMap(s, sd, srcva, dd, dstva, Plain(0x005)).code == Ok
    ensures !Sound(SysPageMap(s, sd, srcva, dd, dstva, Plain(0x005)).s)
  {
    SysPageMapKeeps(s, sd, srcva, dd, dstva, Plain(0x005));
  }

  lemma LookupInRange(s: Phys, d: nat, pn: nat)
    requires Sound(s) && d in s.dirs && pn < USER_PAGES && PageLookup(s, d, pn).Some?
    ensures PageLookup(s, d, pn).value < |s.mem|
  {
    UserPage(pn);
    assert Target(s, Pte(d, Pdx(pn), Ptx(pn))).Some?;
  }

  lemma SysPageUnmapKeeps(s: Phys, d: nat, va: nat)
    requires Sound(s) && d in s.dirs
    ensures var r := SysPageUnmap(s, d, va);
      && Sound(r.s) && SameSpace(s, r.s)
      && r.code == (if va >= UTOP || va % PGSIZE != 0 then Inval else Ok)
      && (r.code == Ok ==> PageLookup(r.s, d, PageNum(va)) == None)
      && (r.code != Ok ==> r.s == s)
      && DataKept(s, r.s)
  {
    if !BadAddress(va) {
      UserAddress(va);
      RemoveKeepsData(s, d, PageNum(va));
      RemoveKeeps(s, {}, {}, d, PageNum(va));
    }
  }
}
