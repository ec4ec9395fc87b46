/** One processor's TLB (Intel SDM Vol. 3A, section 4.10). The hardware may cache any translation of the
    active directory at any moment and drop any entry at any moment; only invlpg and loads of CR3 are
    ordered by the kernel. */
module Tlb {
  import opened Mmu
  import opened Options
  import opened PageTables
  import opened RefCounts
  import opened AddressSpaces
  import opened Lifetime
  import opened Syscalls

  datatype Cpu = Cpu(cr3: nat, tlb: map<nat, Xlat>)

  /** No cached translation contradicts the page tables. */
  ghost predicate Coherent(s: Phys, c: Cpu) {
    forall pn :: pn in c.tlb ==> pn < ALL_PAGES && Translate(s, c.cr3, pn) == Some(c.tlb[pn])
  }

  /** The hardware keeps, drops or freshly walks entries while the tables are those of `s`. */
  ghost predicate Fills(s: Phys, c: Cpu, c': Cpu) {
    && c'.cr3 == c.cr3
    && forall pn :: pn in c'.tlb ==>
         || (pn in c.tlb && c.tlb[pn] == c'.tlb[pn])
         || (pn < ALL_PAGES && Translate(s, c.cr3, pn) == Some(c'.tlb[pn]))
  }

  function Lcr3(d: nat): Cpu {
    Cpu(d, map[])
  }

  /** tlb_invalidate: invlpg unless another environment's directory is being edited. */
  function TlbInvalidate(c: Cpu, cur: Option<nat>, d: nat, pn: nat): Cpu {
    if cur.None? || cur.value == d then c.(tlb := c.tlb - {pn}) else c
  }

  /** `cur` is curenv's directory. With a current environment the processor is on its directory or,
      inside env_free, on kern_pgdir. */
  ghost predicate Active(s: Phys, c: Cpu, cur: Option<nat>) {
    && Directory(s, c.cr3)
    && (cur.Some? ==> c.cr3 == cur.value || c.cr3 == s.kdir)
  }

  lemma FillsKeep(s: Phys, c: Cpu, c': Cpu)
    requires Coherent(s, c) && Fills(s, c, c')
    ensures Coherent(s, c')
  {
  }

  // ----- page_remove -----

  /** page_remove as a processor lives through it: `c1` before the entry is cleared, `c2` after. */
  ghost predicate RemoveTlb(s: Phys, d: nat, pn: nat, cur: Option<nat>, c: Cpu, c': Cpu) {
    exists c1, c2 :: RemoveFills(s, d, pn, cur, c, c1, c2, c')
  }

  ghost predicate RemoveFills(s: Phys, d: nat, pn: nat, cur: Option<nat>, c: Cpu, c1: Cpu, c2: Cpu, c': Cpu) {
    var s' := PageRemove(s, d, pn);
    && Fills(s, c, c1) && Fills(s', c1, c2)
    && Fills(s', if PageLookup(s, d, pn).Some? then TlbInvalidate(c2, cur, d, pn) else c2, c')
  }

  /** Skipping invlpg for directories other than the current one is safe: tables are not shared. */
  lemma RemoveCoherent(s: Phys, d: nat, pn: nat, cur: Option<nat>, c: Cpu, c': Cpu)
    requires Structure(s) && d in s.dirs && pn < USER_PAGES
    requires Active(s, c, cur) && Coherent(s, c) && RemoveTlb(s, d, pn, cur, c, c')
    ensures Coherent(PageRemove(s, d, pn), c') && c'.cr3 == c.cr3
  {
    var c1, c2 :| RemoveFills(s, d, pn, cur, c, c1, c2, c');
    var s' := PageRemove(s, d, pn);
    FillsKeep(s, c, c1);
    var c3 := if PageLookup(s, d, pn).Some? then TlbInvalidate(c2, cur, d, pn) else c2;
    forall p | p in c3.tlb ensures p < ALL_PAGES && Translate(s', c.cr3, p) == Some(c3.tlb[p]) {
      if p in c1.tlb && c1.tlb[p] == c2.tlb[p] {
        RemoveView(s, d, pn, c.cr3, p);
        KernelMapsNoUser(s, pn);
      }
    }
  }

  lemma KernelMapsNoUser(s: Phys, pn: nat)
    requires KernelHalf(s) && pn < USER_PAGES
    ensures Translate(s, s.kdir, pn) == None
  {
    UserPage(pn);
  }

  // ----- page_insert -----

  /** The state between the walk and the final store, with the new count taken and the old page gone. */
  function BeforeStore(s: Phys, d: nat, pp: nat, pn: nat): Phys {
    var s1 := IncRef(PgdirWalk(s, d, pn, true).s, pp);
    if Replaces(s, d, pp, pn) then PageRemove(s1, d, pn) else s1
  }

  predicate Replaces(s: Phys, d: nat, pp: nat, pn: nat) {
    var w := PgdirWalk(s, d, pn, true);
    w.frame.Some? && Present(Word(IncRef(w.s, pp), w.frame.value, Ptx(pn)))
  }

  /** page_insert as a processor lives through it: fills after the walk, in page_remove, after the store. */
  ghost predicate InsertTlb(s: Phys, d: nat, pp: nat, pn: nat, perm: Perm, cur: Option<nat>, c: Cpu, c': Cpu) {
    exists c1, c2, c3 :: InsertFills(s, d, pp, pn, perm, cur, c, c1, c2, c3, c')
  }

  ghost predicate InsertFills(s: Phys, d: nat, pp: nat, pn: nat, perm: Perm, cur: Option<nat>,
                              c: Cpu, c1: Cpu, c2: Cpu, c3: Cpu, c': Cpu)
  {
    var w := PgdirWalk(s, d, pn, true);
    && Fills(s, c, c1)
    && if w.frame.None? then c' == c1 else
        && Fills(w.s, c1, c2)
        && (if Replaces(s, d, pp, pn) then RemoveTlb(IncRef(w.s, pp), d, pn, cur, c2, c3) else c3 == c2)
        && Fills(PageInsert(s, d, pp, pn, perm).s, c3, c')
  }

  /** Creating a table never invalidates a cached translation. */
  lemma WalkCoherent(s: Phys, loose: set<nat>, d: nat, pn: nat, c: Cpu)
    requires Inv(s, loose, {}) && d in s.dirs && pn < USER_PAGES && Directory(s, c.cr3) && Coherent(s, c)
    ensures Coherent(PgdirWalk(s, d, pn, true).s, c)
  {
    forall p | p in c.tlb ensures Translate(PgdirWalk(s, d, pn, true).s, c.cr3, p) == Some(c.tlb[p]) {
      WalkView(s, loose, {}, d, pn, c.cr3, p);
    }
  }

  lemma StoreCoherent(s: Phys, d: nat, pn: nat, e: Entry, c: Cpu)
    requires Structure(s) && d in s.dirs && pn < USER_PAGES && Present(Word(s, d, Pdx(pn)))
    requires Directory(s, c.cr3) && Coherent(s, c) && Translate(s, d, pn) == None
    ensures Coherent(Store(s, Word(s, d, Pdx(pn)).frame, Ptx(pn), e), c)
  {
    forall p | p in c.tlb
      ensures Translate(Store(s, Word(s, d, Pdx(pn)).frame, Ptx(pn), e), c.cr3, p) == Some(c.tlb[p])
    {
      StoreView(s, d, pn, e, c.cr3, p);
    }
  }

  lemma InsertSplits(s: Phys, d: nat, pp: nat, pn: nat, perm: Perm)
    requires PgdirWalk(s, d, pn, true).frame.Some?
    ensures var t := PgdirWalk(s, d, pn, true).frame.value;
      PageInsert(s, d, pp, pn, perm).s == Store(BeforeStore(s, d, pp, pn), t, Ptx(pn), StoredEntry(pp, perm))
    ensures BeforeStore(s, d, pp, pn) ==
      var s1 := IncRef(PgdirWalk(s, d, pn, true).s, pp);
      if Replaces(s, d, pp, pn) then PageRemove(s1, d, pn) else s1
  {
  }

  /** The state in which the old page is removed and the new entry stored. */
  lemma InsertHeadCoherent(s: Phys, loose: set<nat>, d: nat, pp: nat, pn: nat, cur: Option<nat>, c: Cpu, c1: Cpu, c2: Cpu)
    requires Inv(s, loose, {}) && d in s.dirs && pn < USER_PAGES
    requires Active(s, c, cur) && Coherent(s, c) && PgdirWalk(s, d, pn, true).frame.Some?
    requires Fills(s, c, c1) && Fills(PgdirWalk(s, d, pn, true).s, c1, c2)
    ensures var w := PgdirWalk(s, d, pn, true); var s1 := IncRef(w.s, pp);
      && Structure(s1) && d in s1.dirs
      && Word(s1, d, Pdx(pn)).frame == w.frame.value
      && Present(Word(s1, d, Pdx(pn)))
      && Active(s1, c2, cur) && Coherent(s1, c2) && c2.cr3 == c.cr3
      && (Replaces(s, d, pp, pn) <==> Translate(s1, d, pn).Some?)
  {
    var w := PgdirWalk(s, d, pn, true);
    WalkKeeps(s, loose, {}, d, pn);
    FillsKeep(s, c, c1);
    WalkCoherent(s, loose, d, pn, c1);
    FillsKeep(w.s, c1, c2);
    CountedStructure(w.s, pp);
  }

  /** Counting a page changes no structure and no translation. */
  lemma CountedStructure(s: Phys, pp: nat)
    requires Structure(s)
    ensures Structure(IncRef(s, pp)) && SameSpace(s, IncRef(s, pp))
    ensures forall f: nat, k: nat :: Word(IncRef(s, pp), f, k) == Word(s, f, k)
  {
    CountsAside(s, IncRef(s, pp));
    SameTopLevel(s, IncRef(s, pp));
  }

  /** page_insert leaves no stale translation, whatever the page and `perm`. */
  lemma InsertCoherent(s: Phys, loose: set<nat>, d: nat, pp: nat, pn: nat, perm: Perm, cur: Option<nat>, c: Cpu, c': Cpu)
    requires Inv(s, loose, {}) && d in s.dirs && pn < USER_PAGES
    requires Active(s, c, cur) && Coherent(s, c) && InsertTlb(s, d, pp, pn, perm, cur, c, c')
    ensures Coherent(PageInsert(s, d, pp, pn, perm).s, c') && c'.cr3 == c.cr3
  {
    var c1, c2, c3 :| InsertFills(s, d, pp, pn, perm, cur, c, c1, c2, c3, c');
    hide Inv, PageInsert, PgdirWalk, Translate, RemoveTlb, Active, Structure;
    if PgdirWalk(s, d, pn, true).frame.Some? {
      InsertHeadCoherent(s, loose, d, pp, pn, cur, c, c1, c2);
      InsertSplits(s, d, pp, pn, perm);
      InsertTailCoherent(IncRef(PgdirWalk(s, d, pn, true).s, pp), d, pp, pn, perm, cur, c2, c3);
      FillsKeep(PageInsert(s, d, pp, pn, perm).s, c3, c');
    } else {
      FailedInsert(s, d, pp, pn, perm);
      FillsKeep(s, c, c1);
    }
  }

  lemma FailedInsert(s: Phys, d: nat, pp: nat, pn: nat, perm: Perm)
    requires PgdirWalk(s, d, pn, true).frame.None?
    ensures PageInsert(s, d, pp, pn, perm) == Inserted(s, false)
  {
  }

  /** Memory with the old page's entry cleared. */
  lemma RemoveStructure(s: Phys, d: nat, pn: nat)
    requires Structure(s) && d in s.dirs && pn < USER_PAGES && Present(Word(s, d, Pdx(pn)))
    ensures var s2 := PageRemove(s, d, pn);
      && Structure(s2) && SameSpace(s, s2) && Word(s2, d, Pdx(pn)) == Word(s, d, Pdx(pn))
  {
    UserPage(pn);
    var pp := PageLookup(s, d, pn);
    if pp.Some? {
      var m := Store(s, Word(s, d, Pdx(pn)).frame, Ptx(pn), ABSENT);
      EntryStore(s, d, Pdx(pn), Ptx(pn), ABSENT);
      CountsAside(m, PageRemove(s, d, pn));
      FreedInRange(s, d, pn);
      SameTopLevel(m, PageRemove(s, d, pn));
    }
  }

  lemma FreedInRange(s: Phys, d: nat, pn: nat)
    requires Structure(s) && d in s.dirs && pn < USER_PAGES && PageLookup(s, d, pn).Some?
    ensures PageLookup(s, d, pn).value < |s.mem|
  {
    UserPage(pn);
    assert Target(s, Pte(d, Pdx(pn), Ptx(pn))) == PageLookup(s, d, pn);
  }

  lemma InsertTailCoherent(s: Phys, d: nat, pp: nat, pn: nat, perm: Perm, cur: Option<nat>, c: Cpu, c': Cpu)
    requires Structure(s) && d in s.dirs && pn < USER_PAGES && Present(Word(s, d, Pdx(pn)))
    requires Active(s, c, cur) && Coherent(s, c)
    requires if Translate(s, d, pn).Some? then RemoveTlb(s, d, pn, cur, c, c') else c' == c
    ensures var s2 := if Translate(s, d, pn).Some? then PageRemove(s, d, pn) else s;
      Coherent(Store(s2, Word(s, d, Pdx(pn)).frame, Ptx(pn), StoredEntry(pp, perm)), c') && c'.cr3 == c.cr3
  {
    UserPage(pn);
    RemoveStructure(s, d, pn);
    RemoveView(s, d, pn, d, pn);
    var s2 := if Translate(s, d, pn).Some? then PageRemove(s, d, pn) else s;
    if Translate(s, d, pn).Some? {
      RemoveCoherent(s, d, pn, cur, c, c');
    }
    hide Structure, PageRemove;
    StoreCoherent(s2, d, pn, StoredEntry(pp, perm), c');
  }
}
