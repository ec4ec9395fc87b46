/** The page system calls, through two levels of tables and reference counts, are operations on a plain map from
    (environment, page number) to entry: the map on which lib/fork.c is modelled. */
module PageMaps {
  import opened Mmu
  import opened Options
  import opened PageTables
  import opened RefCounts
  import opened AddressSpaces
  import opened Syscalls
  import opened Lifetime
  import opened DataPages
  import CM = CowMemory
  import FB = FrameBytes

  /** `u` maps what the page tables of `s` map below UTOP; `dir` gives each environment its own directory. */
  ghost predicate Shows(s: Phys, dir: map<nat, nat>, u: CM.Users) {
    && (forall e :: e in dir ==> dir[e] in s.dirs)
    && (forall e, e' :: e in dir && e' in dir && dir[e] == dir[e'] ==> e == e')
    && (forall k: CM.Slot :: k in u.pt ==> k.env in dir && k.pn < USER_PAGES)
    && (forall e, pn: nat {:trigger CM.Slot(e, pn)} :: e in dir && pn < USER_PAGES ==> Seen(s, dir[e], pn) == At(u, CM.Slot(e, pn)))
  }

  function At(u: CM.Users, k: CM.Slot): Option<Entry> {
    if k in u.pt then Some(u.pt[k]) else None
  }

  function Seen(s: Phys, d: nat, pn: nat): Option<Entry> {
    var x := Translate(s, d, pn);
    if x.Some? then Some(x.value.entry) else None
  }

  lemma LookupSees(s: Phys, d: nat, pn: nat)
    ensures PageLookup(s, d, pn).Some? <==> Seen(s, d, pn).Some?
    ensures Seen(s, d, pn).Some? ==>
      PageLookup(s, d, pn).value == Seen(s, d, pn).value.frame && LookupFlags(s, d, pn) == Seen(s, d, pn).value.flags
  {
  }

  lemma SeenAt(s: Phys, dir: map<nat, nat>, u: CM.Users, k: CM.Slot)
    requires Shows(s, dir, u) && k.env in dir && k.pn < USER_PAGES
    ensures dir[k.env] in s.dirs && Seen(s, dir[k.env], k.pn) == At(u, k)
    ensures CM.Slot(k.env, k.pn) == k
  {
  }

  /** The map shown after `k` became `e`, or vanished. */
  ghost predicate Updates(u: CM.Users, u': CM.Users, k: CM.Slot, e: Option<Entry>) {
    u'.pt == if e.Some? then u.pt[k := e.value] else u.pt - {k}
  }

  lemma UpdateShows(s: Phys, s': Phys, dir: map<nat, nat>, u: CM.Users, u': CM.Users, k: CM.Slot, e: Option<Entry>)
    requires Shows(s, dir, u) && k.env in dir && k.pn < USER_PAGES && s'.dirs == s.dirs && Updates(u, u', k, e)
    requires Seen(s', dir[k.env], k.pn) == e
    requires forall d, pn: nat :: d in s.dirs && pn < USER_PAGES && (d != dir[k.env] || pn != k.pn) ==> Seen(s', d, pn) == Seen(s, d, pn)
    ensures Shows(s', dir, u')
  {
    hide Seen;
    forall a, pn: nat | a in dir && pn < USER_PAGES ensures Seen(s', dir[a], pn) == At(u', CM.Slot(a, pn)) {
      SeenAt(s, dir, u, CM.Slot(a, pn));
    }
  }

  /** The map with the word that page_insert stores at `k`. */
  function Entered(u: CM.Users, k: CM.Slot, frame: nat, perm: Perm): CM.Users {
    u.(pt := u.pt[k := StoredEntry(frame, perm)])
  }

  lemma InsertSeen(s: Phys, loose: set<nat>, d: nat, pp: nat, pn: nat, perm: Perm, d': nat, pn': nat)
    requires Inv(s, loose, {}) && d in s.dirs && d' in s.dirs && pn < USER_PAGES && pn' < USER_PAGES
    requires PageInsert(s, d, pp, pn, perm).ok
    ensures var s' := PageInsert(s, d, pp, pn, perm).s;
      && s'.dirs == s.dirs
      && Seen(s', d', pn') == if d' == d && pn' == pn then Some(StoredEntry(pp, perm)) else Seen(s, d', pn')
  {
    assert PageInsert(s, d, pp, pn, perm).s.dirs == s.dirs;
    hide Inv, PageInsert, Translate, Present, Has;
    assert pn' != WindowPage(pn);
    InsertView(s, loose, d, pp, pn, perm, d', pn');
  }

  /** A successful page_insert is one map update; no other page of any environment changes. */
  lemma InsertShows(s: Phys, loose: set<nat>, dir: map<nat, nat>, u: CM.Users, k: CM.Slot, pp: nat, perm: Perm)
    requires Inv(s, loose, {}) && Shows(s, dir, u) && k.env in dir && k.pn < USER_PAGES
    requires PageInsert(s, dir[k.env], pp, k.pn, perm).ok
    ensures Shows(PageInsert(s, dir[k.env], pp, k.pn, perm).s, dir, Entered(u, k, pp, perm))
  {
    var d := dir[k.env];
    var s' := PageInsert(s, d, pp, k.pn, perm).s;
    SeenAt(s, dir, u, k);
    hide Inv, PageInsert, Seen, Shows;
    InsertSeen(s, loose, d, pp, k.pn, perm, d, k.pn);
    forall d', pn: nat | d' in s.dirs && pn < USER_PAGES
      ensures Seen(s', d', pn) == if d' == d && pn == k.pn then Some(StoredEntry(pp, perm)) else Seen(s, d', pn)
    {
      InsertSeen(s, loose, d, pp, k.pn, perm, d', pn);
    }
    UpdateShows(s, s', dir, u, Entered(u, k, pp, perm), k, Some(StoredEntry(pp, perm)));
  }

  lemma PageOfAddress(pn: nat)
    requires pn < USER_PAGES
    ensures PageNum(pn * PGSIZE) == pn && !BadAddress(pn * PGSIZE)
  {
    Layout();
  }

  /** sys_page_map refuses exactly what SysMap refuses, and otherwise enters the word that `perm` makes of the source's
      frame: for a `perm` of flags only, that is SysMap. Out of memory nothing changes. */
  lemma MapShows(s: Phys, dir: map<nat, nat>, u: CM.Users, src: CM.Slot, dst: CM.Slot, perm: Perm)
    requires Sound(s) && Shows(s, dir, u) && src.env in dir && dst.env in dir
    requires src.pn < USER_PAGES && dst.pn < USER_PAGES
    ensures var r := SysPageMap(s, dir[src.env], src.pn * PGSIZE, dir[dst.env], dst.pn * PGSIZE, perm);
      && (r.code == Inval <==> CM.SysMap(u, src, dst, perm.flags) == None)
      && (r.code == Ok ==> src in u.pt && Shows(r.s, dir, Entered(u, dst, u.pt[src].frame, perm)))
      && (r.code == Ok && perm.high == 0 ==> Shows(r.s, dir, CM.SysMap(u, src, dst, perm.flags).value))
      && (r.code != Ok ==> r.s == s)
  {
    hide Inv, PageLookup, LookupFlags, Seen, Shows, SysPageMap, Entered, PageInsert, CM.SysMap, StoredEntry;
    SeenAt(s, dir, u, src);
    SeenAt(s, dir, u, dst);
    MapUnfolds(s, u, dir[src.env], src, dir[dst.env], dst, perm);
    if CM.SysMap(u, src, dst, perm.flags).Some? {
      var pp := PageLookup(s, dir[src.env], src.pn).value;
      MapEnters(u, src, dst, perm);
      if PageInsert(s, dir[dst.env], pp, dst.pn, perm).ok {
        InsertShows(s, {}, dir, u, dst, pp, perm);
      } else {
        InsertFails(s, dir[dst.env], pp, dst.pn, perm);
      }
    }
  }

  lemma InsertFails(s: Phys, d: nat, pp: nat, pn: nat, perm: Perm)
    requires Sound(s) && d in s.dirs && pn < USER_PAGES && !PageInsert(s, d, pp, pn, perm).ok
    ensures PageInsert(s, d, pp, pn, perm).s == s
  {
    InsertView(s, {}, d, pp, pn, perm, d, pn);
  }

  /** Both refuse for the same reasons. */
  lemma MapUnfolds(s: Phys, u: CM.Users, sd: nat, src: CM.Slot, dd: nat, dst: CM.Slot, perm: Perm)
    requires src.pn < USER_PAGES && dst.pn < USER_PAGES && Seen(s, sd, src.pn) == At(u, src)
    ensures var r := SysPageMap(s, sd, src.pn * PGSIZE, dd, dst.pn * PGSIZE, perm);
      if CM.SysMap(u, src, dst, perm.flags).None? then r == Sys(s, Inval)
      else
        && src in u.pt && PageLookup(s, sd, src.pn) == Some(u.pt[src].frame)
        && var ins := PageInsert(s, dd, u.pt[src].frame, dst.pn, perm);
           r == Sys(ins.s, if ins.ok then Ok else NoMem)
  {
    PageOfAddress(src.pn);
    PageOfAddress(dst.pn);
    LookupSees(s, sd, src.pn);
    hide PageLookup, LookupFlags, Seen, PageInsert;
  }

  lemma MapEnters(u: CM.Users, src: CM.Slot, dst: CM.Slot, perm: Perm)
    requires CM.SysMap(u, src, dst, perm.flags).Some?
    ensures src in u.pt && (perm.high == 0 ==> CM.SysMap(u, src, dst, perm.flags).value == Entered(u, dst, u.pt[src].frame, perm))
  {
    PlainStores(u.pt[src].frame, perm.flags);
    assert perm.high == 0 ==> perm == Plain(perm.flags);
  }

  /** sys_page_alloc enters a frame that no environment maps, with every word zero: for a `perm` of flags only, that is
      SysAlloc. */
  lemma AllocShows(s: Phys, dir: map<nat, nat>, u: CM.Users, k: CM.Slot, perm: Perm)
    requires Sound(s) && Shows(s, dir, u) && k.env in dir && k.pn < USER_PAGES
    requires SysPageAlloc(s, dir[k.env], k.pn * PGSIZE, perm).code == Ok
    ensures s.free != [] && CM.Fresh(u, s.free[0])
    ensures var s' := SysPageAlloc(s, dir[k.env], k.pn * PGSIZE, perm).s;
      && Shows(s', dir, Entered(u, k, s.free[0], perm))
      && (perm.high == 0 ==> Shows(s', dir, CM.SysAlloc(u, k, s.free[0], perm.flags)))
      && Blank(s', s.free[0])
  {
    SeenAt(s, dir, u, k);
    SysPageAllocZeroes(s, dir[k.env], k.pn * PGSIZE, perm);
    PageOfAddress(k.pn);
    var f := s.free[0];
    var a := PageAlloc(s, true).s;
    FreeIsFresh(s, dir, u, f);
    NewPageInsertable(s, true);
    PlainStores(f, perm.flags);
    AllocatedShows(s, dir, u, true);
    hide Inv, Insertable, Shows;
    InsertShows(a, {f}, dir, u, k, f, perm);
    if perm.high == 0 {
      assert perm == Plain(perm.flags);
      ContentAside(PageInsert(a, dir[k.env], f, k.pn, perm).s, dir, Entered(u, k, f, perm), CM.SysAlloc(u, k, f, perm.flags));
    }
  }

  /** page_alloc alone changes no map. */
  lemma AllocatedShows(s: Phys, dir: map<nat, nat>, u: CM.Users, zero: bool)
    requires Sound(s) && Shows(s, dir, u) && s.free != []
    ensures Shows(PageAlloc(s, zero).s, dir, u)
  {
    hide Inv;
    forall d, pn: nat | d in s.dirs && pn < USER_PAGES ensures Seen(PageAlloc(s, zero).s, d, pn) == Seen(s, d, pn) {
      AllocView(s, zero, d, pn);
    }
  }

  lemma ContentAside(s: Phys, dir: map<nat, nat>, u: CM.Users, u': CM.Users)
    requires Shows(s, dir, u) && u'.pt == u.pt
    ensures Shows(s, dir, u')
  {
  }

  lemma FreeIsFresh(s: Phys, dir: map<nat, nat>, u: CM.Users, f: nat)
    requires Sound(s) && Shows(s, dir, u) && f in s.free
    ensures CM.Fresh(u, f)
  {
    Unreferenced(s, {}, {}, f);
    forall k | k in u.pt ensures u.pt[k].frame != f {
      SeenAt(s, dir, u, k);
      UserPage(k.pn);
      assert Target(s, Pte(dir[k.env], Pdx(k.pn), Ptx(k.pn))) == Some(u.pt[k].frame);
    }
  }

  lemma RemoveSeen(s: Phys, d: nat, pn: nat, d': nat, pn': nat)
    requires Sound(s) && d in s.dirs && d' in s.dirs && pn < USER_PAGES && pn' < USER_PAGES
    ensures var s' := PageRemove(s, d, pn);
      s'.dirs == s.dirs && Seen(s', d', pn') == if d' == d && pn' == pn then None else Seen(s, d', pn')
  {
    RemoveView(s, d, pn, d', pn');
  }

  /** sys_page_unmap deletes one key. */
  lemma UnmapShows(s: Phys, dir: map<nat, nat>, u: CM.Users, k: CM.Slot)
    requires Sound(s) && Shows(s, dir, u) && k.env in dir && k.pn < USER_PAGES
    ensures Shows(SysPageUnmap(s, dir[k.env], k.pn * PGSIZE).s, dir, CM.SysUnmap(u, k))
  {
    PageOfAddress(k.pn);
    var d := dir[k.env];
    var s' := PageRemove(s, d, k.pn);
    SeenAt(s, dir, u, k);
    hide Inv, PageRemove, Seen, Shows;
    RemoveSeen(s, d, k.pn, d, k.pn);
    forall d', pn: nat | d' in s.dirs && pn < USER_PAGES
      ensures Seen(s', d', pn) == if d' == d && pn == k.pn then None else Seen(s, d', pn)
    {
      RemoveSeen(s, d, k.pn, d', pn);
    }
    UpdateShows(s, s', dir, u, CM.SysUnmap(u, k), k, None);
  }

  lemma SetupSeen(s: Phys, d': nat, pn: nat)
    requires Sound(s) && EnvSetupVm(s).frame.Some? && pn < USER_PAGES
    ensures var d, s' := EnvSetupVm(s).frame.value, EnvSetupVm(s).s;
      && d !in s.dirs && s'.dirs == s.dirs + {d} && Seen(s', d, pn) == None
      && (d' in s.dirs ==> Seen(s', d', pn) == Seen(s, d', pn))
  {
    SetupKeeps(s);
    SetupView(s);
    hide Inv, EnvSetupVm;
  }

  /** env_setup_vm adds an environment without pages. */
  lemma SetupShows(s: Phys, dir: map<nat, nat>, u: CM.Users, e: nat)
    requires Sound(s) && Shows(s, dir, u) && e !in dir && EnvSetupVm(s).frame.Some?
    ensures Shows(EnvSetupVm(s).s, dir[e := EnvSetupVm(s).frame.value], u)
  {
    var d, s' := EnvSetupVm(s).frame.value, EnvSetupVm(s).s;
    SetupSeen(s, 0, 0);
    hide Inv, EnvSetupVm, Seen;
    forall a, pn: nat | a in dir[e := d] && pn < USER_PAGES
      ensures Seen(s', dir[e := d][a], pn) == At(u, CM.Slot(a, pn))
    {
      SetupSeen(s, dir[e := d][a], pn);
      if a in dir {
        SeenAt(s, dir, u, CM.Slot(a, pn));
      }
    }
  }

  lemma FreeSeen(s: Phys, d: nat, d': nat, pn: nat)
    requires Sound(s) && d in s.dirs && pn < USER_PAGES
    ensures var s' := EnvFree(s, d);
      s'.dirs == s.dirs - {d} && (d' in s.dirs && d' != d ==> Seen(s', d', pn) == Seen(s, d', pn))
  {
    EnvFreeKeeps(s, d);
    EnvFreeView(s, d);
    hide Inv, EnvFree;
  }

  /** The map without environment `e`. */
  function Without(u: CM.Users, e: nat): CM.Users {
    u.(pt := map k | k in u.pt && k.env != e :: u.pt[k])
  }

  /** env_free takes the environment and its pages away. */
  lemma FreeShows(s: Phys, dir: map<nat, nat>, u: CM.Users, e: nat)
    requires Sound(s) && Shows(s, dir, u) && e in dir
    ensures Shows(EnvFree(s, dir[e]), dir - {e}, Without(u, e))
  {
    var d, s' := dir[e], EnvFree(s, dir[e]);
    SeenAt(s, dir, u, CM.Slot(e, 0));
    FreeSeen(s, d, 0, 0);
    hide *;
    forall d', pn: nat | d' in s.dirs && d' != d && pn < USER_PAGES ensures Seen(s', d', pn) == Seen(s, d', pn) {
      FreeSeen(s, d, d', pn);
    }
    RemainsShow(s, s', dir, u, e);
  }

  lemma RemainsShow(s: Phys, s': Phys, dir: map<nat, nat>, u: CM.Users, e: nat)
    requires Shows(s, dir, u) && e in dir && s'.dirs == s.dirs - {dir[e]}
    requires forall d', pn: nat :: d' in s.dirs && d' != dir[e] && pn < USER_PAGES ==> Seen(s', d', pn) == Seen(s, d', pn)
    ensures Shows(s', dir - {e}, Without(u, e))
  {
    hide Seen;
    var dir' := dir - {e};
    assert forall a :: a in dir' ==> a in dir && a != e && dir'[a] == dir[a] && dir[a] != dir[e];
    forall a, pn: nat | a in dir' && pn < USER_PAGES ensures Seen(s', dir'[a], pn) == At(Without(u, e), CM.Slot(a, pn)) {
      SeenAt(s, dir, u, CM.Slot(a, pn));
    }
  }

  // ----- stores of user programs -----

  lemma MappedIsData(s: Phys, dir: map<nat, nat>, u: CM.Users, k: CM.Slot)
    requires Shows(s, dir, u) && k in u.pt
    ensures Data(s, u.pt[k].frame)
  {
    SeenAt(s, dir, u, k);
    UserPage(k.pn);
    assert Target(s, Pte(dir[k.env], Pdx(k.pn), Ptx(k.pn))) == Some(u.pt[k].frame);
  }

  /** A store to a mapped page changes no map, no count and no free page. */
  lemma StoreShows(s: Phys, dir: map<nat, nat>, u: CM.Users, k: CM.Slot, off: nat, v: CM.Byte)
    requires Sound(s) && Shows(s, dir, u) && k in u.pt && off < PGSIZE
    ensures u.pt[k].frame < |s.mem| && |s.mem[u.pt[k].frame]| == NPTENTRIES
    ensures var s' := FB.Poked(s, u.pt[k].frame, off, v);
      && Sound(s') && s' == s.(mem := s'.mem) && Shows(s', dir, u)
      && forall h :: Target(s', h) == Target(s, h)
  {
    var f := u.pt[k].frame;
    var s' := FB.Poked(s, f, off, v);
    MappedIsData(s, dir, u, k);
    DataIsNoTable(s, f);
    StoreIs(s, f, off, v);
    StoreInData(s, f, s'.mem[f]);
    hide Inv, FB.Poked, Data, Translate;
    SameTranslations(s, s', dir, u);
  }

  lemma StoreIs(s: Phys, f: nat, off: nat, v: CM.Byte)
    requires Shape(s) && f < |s.mem| && off < PGSIZE
    ensures var s' := FB.Poked(s, f, off, v);
      |s.mem[f]| == NPTENTRIES && |s'.mem| == |s.mem| && |s'.mem[f]| == NPTENTRIES && s' == s.(mem := s.mem[f := s'.mem[f]])
  {
  }

  lemma SameTranslations(s: Phys, s': Phys, dir: map<nat, nat>, u: CM.Users)
    requires Shows(s, dir, u) && s'.dirs == s.dirs
    requires forall d, pn: nat :: Directory(s, d) && pn < ALL_PAGES ==> Translate(s', d, pn) == Translate(s, d, pn)
    ensures Shows(s', dir, u)
  {
  }
}
