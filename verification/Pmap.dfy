/** kern/pmap.c: the page array, the linked free list and the frames of physical memory, updated in place. */
module PmapModule {
  import opened Mmu
  import opened Options
  import PT = PageTables
  import RC = RefCounts
  import AS = AddressSpaces
  import LT = Lifetime
  import SC = Syscalls
  import DP = DataPages
  import BT = Boot
  import UM = UserMem
  import opened FreeLists

  /** Rewriting the record of a page that is not on the list leaves the list alone. */
  lemma ElsewhereLinks(ps: seq<PageInfo>, head: Option<nat>, q: seq<nat>, p: nat, info: PageInfo)
    requires Links(ps, head, q) && p < |ps| && p !in q
    ensures Links(ps[p := info], head, q)
  {
    forall k | 0 <= k < |q| ensures q[k] < |ps| && ps[p := info][q[k]].link == Next(q, k) {
      LinkAt(ps, head, q, k);
    }
  }

  /** page_init has passed the pages below i. */
  ghost predicate InitTo(ps: seq<PageInfo>, head: Option<nat>, q: seq<nat>, i: nat, kernelEnd: nat) {
    && i <= |ps| && Links(ps, head, q) && q == BT.InitialFree(i, kernelEnd)
    && (forall p :: 0 <= p < i ==> ps[p].ref == BT.InitialRef(p, kernelEnd))
    && (forall p :: 0 <= p < i && p !in q ==> ps[p].link == None)
    && (forall p :: i <= p < |ps| ==> ps[p] == PageInfo(None, 0))
  }

  lemma InitStart(ps: seq<PageInfo>, head: Option<nat>, kernelEnd: nat)
    requires head == None && forall p :: 0 <= p < |ps| ==> ps[p] == PageInfo(None, 0)
    ensures InitTo(ps, head, [], 0, kernelEnd)
  {
  }

  class Pmap {
    const pages: array<PageInfo>
    const mem: array<seq<Entry>>
    var pageFreeList: Option<nat>
    const kernPgdir: nat

    /** The pages on the free list, in order; the live environments' directories; the withheld pages. */
    ghost var freeSeq: seq<nat>
    ghost var dirs: set<nat>
    ghost var reserved: set<nat>

    /** What mem_init prepares before page_init: a zeroed page array, and the first directory. */
    constructor (npages: nat, kernPgdir: nat)
      requires kernPgdir < npages
      ensures fresh(pages) && fresh(mem) && pages.Length == mem.Length == npages && this.kernPgdir == kernPgdir
      ensures pageFreeList == None && freeSeq == [] && dirs == {}
      ensures forall p :: 0 <= p < pages.Length ==> pages[p] == PageInfo(None, 0)
      ensures forall f :: 0 <= f < mem.Length ==> mem[f] == if f == kernPgdir then BT.FirstDirectory(f) else PT.ZeroPage()
    {
      pages := new PageInfo[npages](i => PageInfo(None, 0));
      mem := new seq<Entry>[npages](f => if f == kernPgdir then BT.FirstDirectory(f) else PT.ZeroPage());
      this.kernPgdir := kernPgdir;
      pageFreeList, freeSeq, dirs, reserved := None, [], {}, {};
    }

    ghost predicate Valid()
      reads this, pages, mem
    {
      && pages.Length == mem.Length
      && Links(pages[..], pageFreeList, freeSeq)
      && PT.NoDuplicates(freeSeq)
      && OffList(pages[..], freeSeq)
      && (forall p :: 0 <= p < pages.Length ==> pages[p].ref < PT.REF_LIMIT)
      && (forall f :: 0 <= f < mem.Length ==> |mem[f]| == NPTENTRIES)
    }

    ghost function Abs(): PT.Phys
      reads this, pages, mem
    {
      PT.Phys(Refs(pages[..]), freeSeq, mem[..], kernPgdir, dirs, reserved)
    }

    method PageAlloc(zero: bool) returns (pp: Option<nat>)
      requires Valid()
      modifies this`pageFreeList, this`freeSeq, pages, mem
      ensures Valid()
      ensures Abs() == PT.PageAlloc(old(Abs()), zero).s && pp == PT.PageAlloc(old(Abs()), zero).frame
      ensures pp.Some? ==> pp.value < pages.Length && pp.value !in freeSeq && pages[pp.value].link == None
      ensures if old(freeSeq) == [] then pp == None else pp == Some(old(freeSeq)[0]) && freeSeq == old(freeSeq)[1..]
    {
      if pageFreeList == None {
        return None;
      }
      var result := pageFreeList.value;
      LinkAt(pages[..], pageFreeList, freeSeq, 0);
      PopLinks(pages[..], pageFreeList, freeSeq);
      pageFreeList := pages[result].link;
      pages[result] := pages[result].(link := None);
      freeSeq := freeSeq[1..];
      if zero {
        mem[result] := PT.ZeroPage();
      }
      assert pages[..] == old(pages[..])[result := pages[result]];
      assert Refs(pages[..]) == Refs(old(pages[..]));
      assert zero ==> mem[..] == old(mem[..])[result := PT.ZeroPage()];
      return Some(result);
    }

    /** page_free panics on a count or a link; otherwise it pushes the page. The check cannot see that the last page of
        the list is on it: pushing that one leaves a head from which no list ends. */
    method PageFree(pp: nat) returns (panicked: bool)
      requires Valid() && pp < pages.Length
      modifies this`pageFreeList, this`freeSeq, pages
      ensures panicked <==> old(pages[pp].ref) != 0 || old(pages[pp].link) != None
      ensures pp !in old(freeSeq) ==> Valid() && (panicked <==> old(pages[pp].ref) != 0)
      ensures pp !in old(freeSeq) ==> Abs() == if panicked then old(Abs()) else PT.PageFree(old(Abs()), pp)
      ensures pp !in old(freeSeq) && !panicked ==> freeSeq == [pp] + old(freeSeq)
      ensures pp in old(freeSeq) && panicked ==> Valid() && Abs() == old(Abs()) && pages[..] == old(pages[..])
      ensures pp in old(freeSeq) && !panicked ==>
        pages[..] == SetLink(old(pages[..]), pp, old(pageFreeList)) && forall q :: !Links(pages[..], pageFreeList, q)
    {
      if pages[pp].ref != 0 || pages[pp].link != None {
        return true;
      }
      ghost var ps, q := pages[..], freeSeq;
      if pp in q {
        TailUnseen(ps, pageFreeList, q, pp);
      } else {
        PushLinks(ps, pageFreeList, q, pp);
        freeSeq := [pp] + freeSeq;
      }
      pages[pp] := pages[pp].(link := pageFreeList);
      pageFreeList := Some(pp);
      assert pages[..] == ps[pp := pages[pp]];
      assert Refs(pages[..]) == Refs(ps);
      return false;
    }

    /** page_decref; it panics where page_free does, on a listed page whose last count goes. */
    method PageDecref(pp: nat) returns (panicked: bool)
      requires Valid() && pp < pages.Length
      modifies this`pageFreeList, this`freeSeq, pages
      ensures pp !in old(freeSeq) || old(pages[pp].ref) != 1 ==>
        !panicked && Valid() && Abs() == PT.PageDecref(old(Abs()), pp)
      ensures pp in old(freeSeq) && old(pages[pp].ref) == 1 ==>
        && (panicked <==> old(pages[pp].link) != None)
        && (panicked ==> Valid() && Abs() == old(Abs()).(refs := old(Abs().refs)[pp := 0]))
        && (!panicked ==> forall q :: !Links(pages[..], pageFreeList, q))
    {
      pages[pp] := pages[pp].(ref := (pages[pp].ref - 1) % PT.REF_LIMIT);
      assert Refs(pages[..]) == Refs(old(pages[..]))[pp := pages[pp].ref];
      SameLinks(old(pages[..]), pages[..], pageFreeList, freeSeq);
      panicked := false;
      if pages[pp].ref == 0 {
        panicked := PageFree(pp);
      }
    }

    /** The count of `pp` goes up by one, modulo 2^16. */
    method IncRef(pp: nat)
      requires Valid() && pp < pages.Length
      modifies pages
      ensures Valid()
      ensures Abs() == PT.IncRef(old(Abs()), pp)
    {
      pages[pp] := pages[pp].(ref := (pages[pp].ref + 1) % PT.REF_LIMIT);
      assert Refs(pages[..]) == Refs(old(pages[..]))[pp := pages[pp].ref];
      SameLinks(old(pages[..]), pages[..], pageFreeList, freeSeq);
    }

    /** One word of a frame is overwritten. */
    method StoreEntry(f: nat, i: nat, e: Entry)
      requires Valid() && f < mem.Length && i < NPTENTRIES
      modifies mem
      ensures Valid()
      ensures Abs() == PT.Store(old(Abs()), f, i, e)
    {
      mem[f] := mem[f][i := e];
      assert mem[..] == old(mem[..])[f := mem[f]];
    }

    /** The frame and index that pgdir_walk's pointer would point into, or None for NULL. */
    method PgdirWalk(d: nat, pn: nat, create: bool) returns (pt: Option<nat>)
      requires Valid() && d < mem.Length && pn < AS.ALL_PAGES
      modifies this`pageFreeList, this`freeSeq, pages, mem
      ensures Valid()
      ensures Abs() == PT.PgdirWalk(old(Abs()), d, pn, create).s
      ensures pt == PT.PgdirWalk(old(Abs()), d, pn, create).frame
    {
      var pde := mem[d][Pdx(pn)];
      assert pde == PT.Word(Abs(), d, Pdx(pn));
      if !Present(pde) {
        if !create {
          return None;
        }
        pt := PageAlloc(true);
        if pt == None {
          return None;
        }
        IncRef(pt.value);
        StoreEntry(d, Pdx(pn), PresentEntry(pt.value, PTE_U | PTE_W));
        return pt;
      }
      return Some(pde.frame);
    }

    method PageLookup(d: nat, pn: nat) returns (pp: Option<nat>, table: nat)
      requires Valid() && RC.Structure(Abs()) && d in dirs && pn < USER_PAGES
      ensures pp == PT.PageLookup(Abs(), d, pn)
      ensures pp.Some? ==> pp.value < pages.Length && table < mem.Length && table == PT.Word(Abs(), d, Pdx(pn)).frame
    {
      UserPage(pn);
      assert PT.Target(Abs(), PT.Pte(d, Pdx(pn), Ptx(pn))) == PT.PageLookup(Abs(), d, pn);
      var pde := mem[d][Pdx(pn)];
      assert pde == PT.Word(Abs(), d, Pdx(pn));
      if !Present(pde) {
        return None, 0;
      }
      RC.UserTable(Abs(), d, Pdx(pn));
      table := pde.frame;
      var pte := mem[table][Ptx(pn)];
      return PT.Named(pte), table;
    }

    /** page_remove; a mapped page is never on the free list while counts are exact. */
    method PageRemove(d: nat, pn: nat)
      requires Valid() && RC.Structure(Abs()) && d in dirs && pn < USER_PAGES
      requires MappedOffList(Abs(), d, pn)
      modifies this`pageFreeList, this`freeSeq, pages, mem
      ensures Valid()
      ensures Abs() == PT.PageRemove(old(Abs()), d, pn)
    {
      var pp, table := PageLookup(d, pn);
      hide RC.Structure;
      if pp == None {
        return;
      }
      var panicked := PageDecref(pp.value);
      StoreEntry(table, Ptx(pn), ABSENT);
    }

    /** page_insert; false stands for -E_NO_MEM. */
    method PageInsert(d: nat, pp: nat, pn: nat, perm: Perm, ghost loose: set<nat>) returns (ok: bool)
      requires Valid() && PT.Inv(Abs(), loose, {}) && RC.Insertable(Abs(), pp) && d in dirs && pn < USER_PAGES
      modifies this`pageFreeList, this`freeSeq, pages, mem
      ensures Valid()
      ensures Abs() == PT.PageInsert(old(Abs()), d, pp, pn, perm).s && ok == PT.PageInsert(old(Abs()), d, pp, pn, perm).ok
      ensures ok ==> (PT.Inv(Abs(), loose - {pp}, {}) <==> RC.Fits(old(Abs()), d, pp, pn, perm))
    {
      RC.InsertKeeps(Abs(), loose, d, pp, pn, perm);
      InsertPrepared(Abs(), loose, d, pp, pn);
      hide PT.Inv, RC.Insertable, RC.Fits, RC.Structure;
      var pt := PgdirWalk(d, pn, true);
      if pt == None {
        return false;
      }
      IncRef(pp);
      var pte := mem[pt.value][Ptx(pn)];
      assert pte == PT.Word(Abs(), pt.value, Ptx(pn));
      if Present(pte) {
        PageRemove(d, pn);
      }
      StoreEntry(pt.value, Ptx(pn), StoredEntry(pp, perm));
      return true;
    }

    // ----- env_setup_vm and the memory half of env_free -----

    /** The new directory's frame, or None for -E_NO_MEM. */
    method EnvSetupVm() returns (d: Option<nat>)
      requires Valid() && PT.Sound(Abs())
      modifies this`pageFreeList, this`freeSeq, this`dirs, pages, mem
      ensures Valid()
      ensures Abs() == PT.EnvSetupVm(old(Abs())).s && d == PT.EnvSetupVm(old(Abs())).frame
      ensures PT.Sound(Abs())
    {
      LT.SetupKeeps(Abs());
      assert kernPgdir < mem.Length;
      hide PT.Inv;
      d := PageAlloc(true);
      if d == None {
        return;
      }
      IncRef(d.value);
      mem[d.value] := mem[kernPgdir];
      dirs := dirs + {d.value};
      assert mem[..] == old(mem[..])[d.value := mem[d.value]];
      StoreEntry(d.value, PDX_UVPT, PresentEntry(d.value, PTE_U));
    }

    method EnvFree(d: nat)
      requires Valid() && PT.Sound(Abs()) && d in dirs
      modifies this`pageFreeList, this`freeSeq, this`dirs, pages, mem
      ensures Valid()
      ensures Abs() == PT.EnvFree(old(Abs()), d)
      ensures PT.Sound(Abs())
    {
      ghost var start := Abs();
      LT.EnvFreeKeeps(Abs(), d);
      hide PT.Inv;
      var pdeno := 0;
      while pdeno < PDX_UTOP
        invariant Valid() && PT.Sound(Abs()) && dirs == old(dirs)
        invariant pdeno <= PDX_UTOP
        invariant PT.FreeTablesFrom(Abs(), d, pdeno) == PT.FreeTablesFrom(start, d, 0)
      {
        FreeTable(d, pdeno, start);
        pdeno := pdeno + 1;
      }
      DirectoryCounted(Abs(), d);
      dirs := dirs - {d};
      var panicked := PageDecref(d);
    }

    /** One turn of env_free's outer loop. */
    method FreeTable(d: nat, pdeno: nat, ghost start: PT.Phys)
      requires Valid() && PT.Sound(Abs()) && d in dirs && pdeno < PDX_UTOP
      requires PT.FreeTablesFrom(Abs(), d, pdeno) == PT.FreeTablesFrom(start, d, 0)
      modifies this`pageFreeList, this`freeSeq, pages, mem
      ensures Valid() && PT.Sound(Abs())
      ensures PT.FreeTablesFrom(Abs(), d, pdeno + 1) == PT.FreeTablesFrom(start, d, 0)
    {
      DirectoryCounted(Abs(), d);
      var pde := mem[d][pdeno];
      assert pde == PT.Word(Abs(), d, pdeno);
      if Present(pde) {
        ghost var before := Abs();
        LT.FreeTableStep(before, d, pdeno);
        LT.UnmapKeeps(before, d, pdeno, 0);
        UnmapTable(d, pdeno);
        TableCounted(Abs(), d, pdeno);
        hide PT.Inv;
        StoreEntry(d, pdeno, ABSENT);
        var panicked := PageDecref(pde.frame);
      }
    }

    /** env_free's inner loop. */
    method UnmapTable(d: nat, pdeno: nat)
      requires Valid() && PT.Sound(Abs()) && d in dirs && pdeno < PDX_UTOP && Present(PT.Word(Abs(), d, pdeno))
      modifies this`pageFreeList, this`freeSeq, pages, mem
      ensures Valid() && PT.Sound(Abs())
      ensures Abs() == PT.UnmapFrom(old(Abs()), d, pdeno, 0)
    {
      ghost var start := Abs();
      hide *;
      var pteno := 0;
      while pteno < NPTENTRIES
        invariant Valid() && PT.Sound(Abs()) && dirs == old(dirs)
        invariant pteno <= NPTENTRIES && PT.Word(Abs(), d, pdeno) == PT.Word(start, d, pdeno)
        invariant PT.UnmapFrom(Abs(), d, pdeno, pteno) == PT.UnmapFrom(start, d, pdeno, 0)
      {
        UnmapEntry(d, pdeno, pteno);
        pteno := pteno + 1;
      }
      UnmapDone(Abs(), d, pdeno, pteno);
    }

    method UnmapEntry(d: nat, pdeno: nat, pteno: nat)
      requires Valid() && PT.Sound(Abs()) && d in dirs && pdeno < PDX_UTOP && Present(PT.Word(Abs(), d, pdeno))
      requires pteno < NPTENTRIES
      modifies this`pageFreeList, this`freeSeq, pages, mem
      ensures Valid() && PT.Sound(Abs())
      ensures PT.Word(Abs(), d, pdeno) == old(PT.Word(Abs(), d, pdeno))
      ensures PT.UnmapFrom(Abs(), d, pdeno, pteno + 1) == PT.UnmapFrom(old(Abs()), d, pdeno, pteno)
    {
      TableCounted(Abs(), d, pdeno);
      LT.UnmapStep(Abs(), d, pdeno, pteno);
      PageSplit(PageAt(pdeno, pteno), pdeno, pteno);
      var table := mem[d][pdeno].frame;
      var pte := mem[table][pteno];
      assert pte == PT.Word(Abs(), table, pteno);
      MappedPageOffList(Abs(), {}, {}, d, PageAt(pdeno, pteno));
      assert RC.Structure(Abs());
      hide PT.Inv, PT.PageRemove, RC.Structure, MappedOffList;
      if Present(pte) {
        PageRemove(d, PageAt(pdeno, pteno));
      }
    }

    // ----- the page system calls, and checking user memory -----

    /** The checks and calls of sys_page_alloc, in the source's order. */
    method MapNewPage(d: nat, va: nat, perm: Perm) returns (code: PT.Code)
      requires Valid() && PT.Sound(Abs()) && d in dirs
      modifies this`pageFreeList, this`freeSeq, pages, mem
      ensures Valid()
      ensures Abs() == PT.SysPageAlloc(old(Abs()), d, va, perm).s && code == PT.SysPageAlloc(old(Abs()), d, va, perm).code
    {
      hide PT.Inv, PT.Word, PT.PageInsert, RC.Insertable, RC.Room, RC.Fits;
      hide PT.NoDuplicates, Links, OffList;
      if va >= UTOP || va % PGSIZE != 0 || !Has(perm.flags, PTE_U | PTE_P) {
        return PT.Inval;
      }
      SC.UserAddress(va);
      SC.NewPageInsertable(Abs(), true);
      var pg := PageAlloc(true);
      if pg == None {
        return PT.NoMem;
      }
      RC.InsertKeeps(Abs(), {pg.value}, d, pg.value, PageNum(va), perm);
      var ok := PageInsert(d, pg.value, PageNum(va), perm, {pg.value});
      if !ok {
        var panicked := PageFree(pg.value);
        return PT.NoMem;
      }
      return PT.Ok;
    }

    /** sys_page_alloc, on a resolved environment: the page it maps is the first free one, and it is zero. */
    method SysPageAlloc(d: nat, va: nat, perm: Perm) returns (code: PT.Code)
      requires Valid() && PT.Sound(Abs()) && d in dirs
      modifies this`pageFreeList, this`freeSeq, pages, mem
      ensures Valid()
      ensures Abs() == PT.SysPageAlloc(old(Abs()), d, va, perm).s && code == PT.SysPageAlloc(old(Abs()), d, va, perm).code
      ensures code == PT.Ok ==> old(freeSeq) != [] && DP.Blank(Abs(), old(freeSeq)[0])
    {
      SC.SysPageAllocZeroes(Abs(), d, va, perm);
      hide *;
      code := MapNewPage(d, va, perm);
    }

    /** sys_page_map, on resolved environments. */
    method SysPageMap(sd: nat, srcva: nat, dd: nat, dstva: nat, perm: Perm) returns (code: PT.Code)
      requires Valid() && PT.Sound(Abs()) && sd in dirs && dd in dirs
      modifies this`pageFreeList, this`freeSeq, pages, mem
      ensures Valid()
      ensures var r := PT.SysPageMap(old(Abs()), sd, srcva, dd, dstva, perm); Abs() == r.s && code == r.code
    {
      if srcva >= UTOP || dstva >= UTOP || srcva % PGSIZE != 0 || dstva % PGSIZE != 0 {
        return PT.Inval;
      }
      SC.UserAddress(srcva);
      SC.UserAddress(dstva);
      UserPage(PageNum(srcva));
      assert RC.Structure(Abs());
      hide PT.Inv, RC.Structure;
      var pg, table := PageLookup(sd, PageNum(srcva));
      if pg == None || !Has(perm.flags, PTE_U | PTE_P) {
        return PT.Inval;
      }
      SC.LookedUpInsertable(Abs(), sd, PageNum(srcva));
      hide RC.Insertable, RC.Fits;
      var pte := mem[table][Ptx(PageNum(srcva))];
      assert pte.flags == PT.LookupFlags(Abs(), sd, PageNum(srcva));
      if !Has(pte.flags, PTE_W) && Has(perm.flags, PTE_W) {
        return PT.Inval;
      }
      var ok := PageInsert(dd, pg.value, PageNum(dstva), perm, {});
      return if ok then PT.Ok else PT.NoMem;
    }

    /** sys_page_unmap, on a resolved environment. */
    method SysPageUnmap(d: nat, va: nat) returns (code: PT.Code)
      requires Valid() && PT.Sound(Abs()) && d in dirs
      modifies this`pageFreeList, this`freeSeq, pages, mem
      ensures Valid() && PT.Sound(Abs())
      ensures Abs() == PT.SysPageUnmap(old(Abs()), d, va).s && code == PT.SysPageUnmap(old(Abs()), d, va).code
    {
      if va >= UTOP || va % PGSIZE != 0 {
        return PT.Inval;
      }
      SC.SysPageUnmapKeeps(Abs(), d, va);
      SC.UserAddress(va);
      MappedPageOffList(Abs(), {}, {}, d, PageNum(va));
      assert RC.Structure(Abs());
      hide PT.Inv, RC.Structure, MappedOffList;
      PageRemove(d, PageNum(va));
      return PT.Ok;
    }

    /** user_mem_check: None for success, or user_mem_check_addr. */
    method UserMemCheck(d: nat, va: nat, len: nat, perm: Flags) returns (bad: Option<nat>)
      requires Valid() && PT.Sound(Abs()) && d in dirs && va < ADDRESSES && len < ADDRESSES
      ensures bad == UM.Check(Abs(), d, va, len, perm)
    {
      hide PT.Inv;
      var p := FirstBadPage(d, PageNum(va), UM.EndPage(va, len), perm);
      if p == None {
        return None;
      }
      return Some(if p.value * PGSIZE < va then va else p.value * PGSIZE);
    }

    /** Its loop over the pages. */
    method FirstBadPage(d: nat, start: nat, end: nat, perm: Flags) returns (bad: Option<nat>)
      requires Valid() && PT.Sound(Abs()) && d in dirs && end < AS.ALL_PAGES
      ensures bad == UM.FirstBad(Abs(), d, start, end, perm)
    {
      hide PT.Inv, UM.Accessible;
      var p := start;
      while p < end
        invariant UM.FirstBad(Abs(), d, p, end, perm) == UM.FirstBad(Abs(), d, start, end, perm)
      {
        var accessible := UserMemPage(d, p, perm);
        if !accessible {
          return Some(p);
        }
        p := p + 1;
      }
      return None;
    }

    /** The test of one page: pgdir_walk without creation, then the entry's bits. */
    method UserMemPage(d: nat, p: nat, perm: Flags) returns (accessible: bool)
      requires Valid() && PT.Sound(Abs()) && d in dirs && p < AS.ALL_PAGES
      ensures accessible == UM.Accessible(Abs(), d, p, perm)
    {
      WalkInRange(Abs(), d, p);
      hide PT.Inv;
      var pde := mem[d][Pdx(p)];
      assert pde == PT.Word(Abs(), d, Pdx(p));
      if p * PGSIZE >= ULIM || !Present(pde) {
        return false;
      }
      var pte := mem[pde.frame][Ptx(p)];
      assert pte == PT.Word(Abs(), pde.frame, Ptx(p));
      return Present(pte) && Has(pte.flags, perm);
    }

    // ----- booting -----

    /** page_init, over a zeroed page array: pages in use get a count of one, the rest are pushed in turn. With
        kern_pgdir among the pages in use, that establishes the invariant of all later operations. */
    method PageInit(kernelUsedPage: nat)
      requires pages.Length == mem.Length && pageFreeList == None && freeSeq == [] && dirs == {}
      requires forall p :: 0 <= p < pages.Length ==> pages[p] == PageInfo(None, 0)
      requires forall f :: 0 <= f < mem.Length ==> |mem[f]| == NPTENTRIES
      requires kernPgdir < mem.Length && BT.Withheld(kernPgdir, kernelUsedPage) && mem[kernPgdir] == BT.FirstDirectory(kernPgdir)
      modifies this`pageFreeList, this`freeSeq, this`reserved, pages
      ensures Valid()
      ensures BT.AfterPageInit(Abs(), kernelUsedPage) && PT.Sound(Abs())
    {
      var i := 0;
      InitStart(pages[..], pageFreeList, kernelUsedPage);
      hide *;
      while i < pages.Length
        invariant 0 <= i <= pages.Length && InitTo(pages[..], pageFreeList, freeSeq, i, kernelUsedPage)
      {
        InitTurn(i, kernelUsedPage);
        i := i + 1;
      }
      reserved := BT.WithheldPages(pages.Length, kernelUsedPage);
      FinishInit(kernelUsedPage);
    }

    /** The loop body of page_init. */
    method InitTurn(i: nat, kernelUsedPage: nat)
      requires i < pages.Length && InitTo(pages[..], pageFreeList, freeSeq, i, kernelUsedPage)
      modifies this`pageFreeList, this`freeSeq, pages
      ensures InitTo(pages[..], pageFreeList, freeSeq, i + 1, kernelUsedPage)
    {
      ghost var ps := pages[..];
      if i == 0 || i == BT.MPENTRY_PAGE || BT.IO_HOLE_PAGE <= i < kernelUsedPage {
        ElsewhereLinks(ps, pageFreeList, freeSeq, i, PageInfo(None, 1));
        pages[i] := PageInfo(None, 1);
        assert pages[..] == ps[i := PageInfo(None, 1)];
      } else {
        PushLinks(ps, pageFreeList, freeSeq, i);
        pages[i] := PageInfo(pageFreeList, 0);
        assert pages[..] == SetLink(ps, i, pageFreeList);
        pageFreeList := Some(i);
        freeSeq := [i] + freeSeq;
      }
    }

    ghost method FinishInit(kernelUsedPage: nat)
      requires pages.Length == mem.Length && dirs == {} && reserved == BT.WithheldPages(pages.Length, kernelUsedPage)
      requires InitTo(pages[..], pageFreeList, freeSeq, pages.Length, kernelUsedPage)
      requires forall f :: 0 <= f < mem.Length ==> |mem[f]| == NPTENTRIES
      requires kernPgdir < mem.Length && BT.Withheld(kernPgdir, kernelUsedPage) && mem[kernPgdir] == BT.FirstDirectory(kernPgdir)
      ensures Valid() && BT.AfterPageInit(Abs(), kernelUsedPage) && PT.Sound(Abs())
    {
      hide Links;
      BT.PageInitSound(Abs(), kernelUsedPage);
    }

    /** One turn of boot_map_region; false where it panics. */
    method BootMapPage(pn: nat, frame: nat, perm: Flags) returns (ok: bool)
      requires Valid() && PT.Sound(Abs()) && dirs == {} && BT.KernelPage(pn)
      modifies this`pageFreeList, this`freeSeq, pages, mem
      ensures Valid()
      ensures ok <==> BT.BootMapPage(old(Abs()), pn, frame, perm).Some?
      ensures ok ==> Abs() == BT.BootMapPage(old(Abs()), pn, frame, perm).value && PT.Sound(Abs()) && dirs == {}
    {
      BT.KernelWalk(Abs(), pn);
      BT.BootMapPageMaps(Abs(), pn, frame, perm);
      assert kernPgdir < mem.Length;
      ghost var w := PT.PgdirWalk(Abs(), kernPgdir, pn, true);
      if w.frame.Some? {
        BT.KernelStore(w.s, pn, PresentEntry(frame, perm));
      }
      hide PT.Inv;
      var table := PgdirWalk(kernPgdir, pn, true);
      if table == None {
        return false;
      }
      StoreEntry(table.value, Ptx(pn), PresentEntry(frame, perm));
      return true;
    }

    /** boot_map_region on kern_pgdir, by page and frame number; false where it panics. */
    method BootMapRegion(pn: nat, frame: nat, n: nat, perm: Flags) returns (ok: bool)
      requires Valid() && PT.Sound(Abs()) && dirs == {} && pn + n <= AS.ALL_PAGES
      requires forall k :: pn <= k < pn + n ==> BT.KernelPage(k)
      modifies this`pageFreeList, this`freeSeq, pages, mem
      ensures Valid()
      ensures ok <==> BT.BootMap(old(Abs()), pn, frame, n, perm).Some?
      ensures ok ==> Abs() == BT.BootMap(old(Abs()), pn, frame, n, perm).value && PT.Sound(Abs())
    {
      ghost var start := Abs();
      hide *;
      var i := 0;
      while i < n
        invariant 0 <= i <= n
        invariant Valid() && PT.Sound(Abs()) && dirs == {}
        invariant BT.BootMap(Abs(), pn + i, frame + i, n - i, perm) == BT.BootMap(start, pn, frame, n, perm)
      {
        BT.BootMapUnfolds(Abs(), pn + i, frame + i, n - i, perm);
        assert BT.KernelPage(pn + i);
        ok := BootMapPage(pn + i, frame + i, perm);
        if !ok {
          return;
        }
        i := i + 1;
      }
      BT.BootMapUnfolds(Abs(), pn + i, frame + i, n - i, perm);
      return true;
    }

    /** The pass of check_page_free_list that moves pages below directory index `limit` to the front, in place.
        `tail0` and `tail1` stand for the pointers tp[0] and tp[1]: the link field to write next, or None while
        that is still the local variable pp1 or pp2. */
    method LowPagesFirst(limit: nat)
      requires Valid()
      modifies this`pageFreeList, this`freeSeq, pages
      ensures Valid()
      ensures freeSeq == OfType(old(freeSeq), limit, false) + OfType(old(freeSeq), limit, true)
      ensures Refs(pages[..]) == old(Refs(pages[..]))
    {
      hide Splitting, OffList, OfType, Links, Through, PT.NoDuplicates;
      ghost var q := freeSeq;
      ghost var was := pages[..];
      var pp1, tail0, pp2, tail1 := Split(limit);
      SplitEnd(pages[..], q, limit, pp1, tail0, pp2, tail1);
      TailsInRange(pages[..], q, limit, pp1, tail0, pp2, tail1);
      ThroughRefs(pages[..], tail1, None);
      pp2 := WriteThrough(pp2, tail1, None);
      ThroughRefs(pages[..], tail0, pp2);
      pp1 := WriteThrough(pp1, tail0, pp2);
      pageFreeList := pp1;
      freeSeq := OfType(q, limit, false) + OfType(q, limit, true);
      SameRefs(was, pages[..]);
    }

    /** The loop, which leaves two lists still to be closed and joined. */
    method Split(limit: nat) returns (pp1: Option<nat>, tail0: Option<nat>, pp2: Option<nat>, tail1: Option<nat>)
      requires Valid()
      modifies pages
      ensures Splitting(pages[..], freeSeq, limit, |freeSeq|, pp1, tail0, pp2, tail1) && OffList(pages[..], freeSeq)
      ensures Refs(pages[..]) == Refs(old(pages[..]))
    {
      pp1, tail0, pp2, tail1 := None, None, None, None;
      var pp := pageFreeList;
      ghost var i := 0;
      SplitStart(pages[..], pageFreeList, freeSeq, limit, pp1, pp2);
      hide *;
      while pp != None
        invariant Splitting(pages[..], freeSeq, limit, i, pp1, tail0, pp2, tail1) && OffList(pages[..], freeSeq)
        invariant pp == if i < |freeSeq| then Some(freeSeq[i]) else None
        invariant i <= |freeSeq| && Refs(pages[..]) == Refs(old(pages[..]))
        invariant PT.NoDuplicates(freeSeq)
        decreases |freeSeq| - i
      {
        pp1, tail0, pp2, tail1 := Place(pp.value, limit, pp1, tail0, pp2, tail1, freeSeq, i);
        pp := pages[pp.value].link;
        NextIs(freeSeq, i);
        i := i + 1;
      }
    }

    /** The body of the loop: `*tp[pagetype] = pp; tp[pagetype] = &pp->pp_link;`. */
    method Place(p: nat, limit: nat, pp1: Option<nat>, tail0: Option<nat>, pp2: Option<nat>, tail1: Option<nat>,
                 ghost q: seq<nat>, ghost i: nat)
      returns (pp1': Option<nat>, tail0': Option<nat>, pp2': Option<nat>, tail1': Option<nat>)
      requires Splitting(pages[..], q, limit, i, pp1, tail0, pp2, tail1) && OffList(pages[..], q)
      requires PT.NoDuplicates(q) && i < |q| && q[i] == p
      modifies pages
      ensures Splitting(pages[..], q, limit, i + 1, pp1', tail0', pp2', tail1') && OffList(pages[..], q)
      ensures Refs(pages[..]) == Refs(old(pages[..]))
      ensures p < pages.Length && pages[p].link == Next(q, i)
    {
      SplitStep(pages[..], q, limit, i, pp1, tail0, pp2, tail1);
      ThroughOffList(pages[..], q, if Pdx(p) >= limit then tail1 else tail0, Some(p));
      hide Splitting, OffList, Refs, Through;
      if Pdx(p) >= limit {
        pp2' := WriteThrough(pp2, tail1, Some(p));
        pp1', tail0', tail1' := pp1, tail0, Some(p);
      } else {
        pp1' := WriteThrough(pp1, tail0, Some(p));
        tail0', pp2', tail1' := Some(p), pp2, tail1;
      }
    }

    /** `*tail = link`: into a page's link field, or into the local head that is returned. */
    method WriteThrough(head: Option<nat>, tail: Option<nat>, link: Option<nat>) returns (head': Option<nat>)
      requires tail.Some? ==> tail.value < pages.Length
      modifies pages
      ensures head' == Local(head, tail, link)
      ensures pages[..] == Through(old(pages[..]), tail, link)
    {
      if tail == None {
        return link;
      }
      pages[tail.value] := pages[tail.value].(link := link);
      return head;
    }
  }

  lemma TailsInRange(ps: seq<PageInfo>, q: seq<nat>, limit: nat,
                     head0: Option<nat>, tail0: Option<nat>, head1: Option<nat>, tail1: Option<nat>)
    requires Splitting(ps, q, limit, |q|, head0, tail0, head1, tail1)
    ensures (tail0.Some? ==> tail0.value < |ps|) && (tail1.Some? ==> tail1.value < |ps|)
  {
  }

  lemma SameRefs(was: seq<PageInfo>, now: seq<PageInfo>)
    requires Refs(now) == Refs(was)
    ensures |now| == |was| && forall p :: 0 <= p < |now| ==> now[p].ref == was[p].ref
  {
    assert |Refs(now)| == |now| && |Refs(was)| == |was|;
    assert forall p :: 0 <= p < |now| ==> Refs(now)[p] == now[p].ref;
  }

  /** A mapped page is not on the free list. */
  predicate MappedOffList(s: PT.Phys, d: nat, pn: nat) {
    PT.PageLookup(s, d, pn).Some? ==> PT.PageLookup(s, d, pn).value !in s.free
  }

  lemma MappedPageOffList(s: PT.Phys, loose: set<nat>, pinned: set<nat>, d: nat, pn: nat)
    requires PT.Inv(s, loose, pinned) && d in s.dirs && pn < USER_PAGES
    ensures MappedOffList(s, d, pn)
  {
    if PT.PageLookup(s, d, pn).Some? {
      RC.LookedUpCounted(s, loose, pinned, d, pn);
    }
  }

  /** What page_insert relies on after the walk. */
  lemma InsertPrepared(s: PT.Phys, loose: set<nat>, d: nat, pp: nat, pn: nat)
    requires PT.Inv(s, loose, {}) && RC.Insertable(s, pp) && d in s.dirs && pn < USER_PAGES
    ensures d < |s.mem| && Pdx(pn) < NPDENTRIES && Ptx(pn) < NPTENTRIES
    ensures var w := PT.PgdirWalk(s, d, pn, true);
      w.frame.Some? ==>
        && RC.Structure(PT.IncRef(w.s, pp)) && MappedOffList(PT.IncRef(w.s, pp), d, pn) && w.s.dirs == s.dirs
        && pp < |w.s.refs| && w.frame.value < |w.s.mem| && |w.s.refs| == |s.refs| && |w.s.mem| == |s.mem|
  {
    UserPage(pn);
    assert PT.Target(s, PT.Dir(d)) == Some(d);
    RC.WalkKeeps(s, loose, {}, d, pn);
    var w := PT.PgdirWalk(s, d, pn, true);
    if w.frame.Some? {
      RC.UserTable(w.s, d, Pdx(pn));
      MappedPageOffList(w.s, loose, {}, d, pn);
      hide PT.PgdirWalk;
      CountedStructure(w.s, pp);
    }
  }

  lemma CountedStructure(s: PT.Phys, pp: nat)
    requires RC.Structure(s)
    ensures RC.Structure(PT.IncRef(s, pp))
    ensures forall d, pn :: MappedOffList(PT.IncRef(s, pp), d, pn) <==> MappedOffList(s, d, pn)
  {
    RC.CountsAside(s, PT.IncRef(s, pp));
    RC.SameTopLevel(s, PT.IncRef(s, pp));
  }

  lemma WalkInRange(s: PT.Phys, d: nat, p: nat)
    requires PT.Sound(s) && d in s.dirs && p < AS.ALL_PAGES
    ensures Pdx(p) < NPDENTRIES && Ptx(p) < NPTENTRIES && d < |s.mem|
    ensures Present(PT.Word(s, d, Pdx(p))) ==> PT.Word(s, d, Pdx(p)).frame < |s.mem|
  {
    assert PT.Target(s, PT.Dir(d)) == Some(d);
    if Present(PT.Word(s, d, Pdx(p))) {
      LT.TableOf(s, d, Pdx(p));
    }
  }

  lemma UnmapDone(s: PT.Phys, d: nat, i: nat, j: nat)
    requires j >= NPTENTRIES
    ensures PT.UnmapFrom(s, d, i, j) == s
  {
  }

  lemma DirectoryCounted(s: PT.Phys, d: nat)
    requires PT.Sound(s) && d in s.dirs
    ensures d < |s.mem| && d !in s.free
  {
    assert PT.Target(s, PT.Dir(d)) == Some(d);
    assert PT.Dir(d) in PT.Holders(s, d);
  }

  lemma TableCounted(s: PT.Phys, d: nat, i: nat)
    requires PT.Sound(s) && d in s.dirs && i < PDX_UTOP && Present(PT.Word(s, d, i))
    ensures d < |s.mem| && PT.Word(s, d, i).frame < |s.mem| && PT.Word(s, d, i).frame !in s.free
  {
    RC.UserTable(s, d, i);
    assert PT.Target(s, PT.Pde(d, i)) == Some(PT.Word(s, d, i).frame);
    assert PT.Pde(d, i) in PT.Holders(s, PT.Word(s, d, i).frame);
  }
}
