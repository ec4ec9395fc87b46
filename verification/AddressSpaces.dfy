/** What page_insert and page_remove do to the translations the hardware can see, in every directory. */
module AddressSpaces {
  import opened Mmu
  import opened Options
  import opened PageTables
  import opened RefCounts

  /** The number of pages in a 32-bit address space. */
  const ALL_PAGES: nat := NPDENTRIES * NPTENTRIES

  predicate Directory(s: Phys, d: nat) {
    d in s.dirs || d == s.kdir
  }

  /** The page of the UVPT window that shows the page table for `pn`. */
  function WindowPage(pn: nat): nat {
    PageAt(PDX_UVPT, Pdx(pn))
  }

  /** A walk from any directory enters the table at (d, i) through that very slot. */
  lemma OneWayIn(s: Phys, d: nat, i: nat, d': nat, i': nat)
    requires Structure(s) && d in s.dirs && i < PDX_UTOP && Present(Word(s, d, i))
    requires Directory(s, d') && i' < NPDENTRIES && Present(Word(s, d', i'))
    requires Word(s, d', i').frame == Word(s, d, i).frame
    ensures d' == d && i' == i
  {
    var t := Word(s, d, i).frame;
    UserTable(s, d, i);
    assert i' >= PDX_UTOP && i' != PDX_UVPT ==> Word(s, s.kdir, i') == Word(s, d', i');
    assert i' >= PDX_UTOP && i' != PDX_UVPT ==> Target(s, Kern(i')) == Some(t);
    assert i' < PDX_UTOP ==> Target(s, Pde(d', i')) == Some(t);
  }

  /** One stored table entry changes one translation of one directory. */
  lemma StoreView(s: Phys, d: nat, pn: nat, e: Entry, d': nat, pn': nat)
    requires Structure(s) && d in s.dirs && pn < USER_PAGES && Present(Word(s, d, Pdx(pn)))
    requires Directory(s, d') && pn' < ALL_PAGES
    ensures var s' := Store(s, Word(s, d, Pdx(pn)).frame, Ptx(pn), e);
      Translate(s', d', pn') ==
        if d' != d || pn' != pn then Translate(s, d', pn')
        else if Present(e) then Some(Xlat(Word(s, d, Pdx(pn)).flags, e)) else None
  {
    var i, j, i', j' := Pdx(pn), Ptx(pn), Pdx(pn'), Ptx(pn');
    var t := Word(s, d, i).frame;
    UserPage(pn);
    UserTable(s, d, i);
    EntryStore(s, d, i, j, e);
    PageSplit(pn', i, j);
    if Present(Word(s, d', i')) && Word(s, d', i').frame == t {
      OneWayIn(s, d, i, d', i');
    }
  }

  /** page_remove deletes exactly one translation, in one directory. */
  lemma RemoveView(s: Phys, d: nat, pn: nat, d': nat, pn': nat)
    requires Structure(s) && d in s.dirs && pn < USER_PAGES
    requires Directory(s, d') && pn' < ALL_PAGES
    ensures Translate(PageRemove(s, d, pn), d', pn') == if d' == d && pn' == pn then None else Translate(s, d', pn')
  {
    if PageLookup(s, d, pn).Some? {
      var s' := PageRemove(s, d, pn);
      var m := Store(s, Word(s, d, Pdx(pn)).frame, Ptx(pn), ABSENT);
      StoreView(s, d, pn, ABSENT, d', pn');
      CountsAside(m, s');
    }
  }

  /** `s'` is `s` with the unreferenced frame `t` as a new, empty table at slot (d, i). */
  ghost predicate HasNewTable(s: Phys, s': Phys, d: nat, i: nat, t: nat) {
    && !Present(Word(s, d, i)) && t != d
    && (forall h :: Target(s, h) != Some(t))
    && (forall f: nat, k: nat :: f != t && !(f == d && k == i) ==> Word(s', f, k) == Word(s, f, k))
    && (forall k: nat :: !Present(Word(s', t, k)))
    && Word(s', d, i) == PresentEntry(t, PTE_U | PTE_W)
  }

  lemma WalkEffect(s: Phys, loose: set<nat>, pinned: set<nat>, d: nat, pn: nat)
    requires Inv(s, loose, pinned) && d in s.dirs && pn < USER_PAGES
    ensures var s' := PgdirWalk(s, d, pn, true).s;
      s' != s ==> s.free != [] && HasNewTable(s, s', d, Pdx(pn), s.free[0])
  {
    UserPage(pn);
    if !Present(Word(s, d, Pdx(pn))) && s.free != [] {
      assert s.free[0] in s.free;
      Unreferenced(s, loose, pinned, s.free[0]);
      assert Target(s, Dir(d)) == Some(d);
    }
  }

  /** Directories are referenced, and by nothing that a walk goes through but their own UVPT slots. */
  lemma DirectoryApart(s: Phys, d: nat, d': nat, i': nat)
    requires Structure(s) && d in s.dirs && Directory(s, d') && i' < NPDENTRIES && Present(Word(s, d', i'))
    ensures exists h :: Target(s, h) == Some(d')
    ensures i' == PDX_UVPT ==> Word(s, d', i').frame == d'
    ensures i' != PDX_UVPT ==> Word(s, d', i').frame != d && exists h :: Target(s, h) == Some(Word(s, d', i').frame)
  {
    assert Target(s, Dir(d)) == Some(d);
    assert d' in s.dirs ==> Target(s, Dir(d')) == Some(d');
    assert d' == s.kdir ==> Target(s, Boot(d')) == Some(d');
    if i' != PDX_UVPT {
      var h := if i' < PDX_UTOP then Pde(d', i') else Kern(i');
      assert i' >= PDX_UTOP ==> Word(s, s.kdir, i') == Word(s, d', i');
      assert Target(s, h) == Some(Word(s, d', i').frame);
    }
  }

  lemma NewTableView(s: Phys, s': Phys, d: nat, i: nat, t: nat, d': nat, pn': nat)
    requires Structure(s) && d in s.dirs && i < PDX_UTOP && HasNewTable(s, s', d, i, t)
    requires Directory(s, d') && pn' < ALL_PAGES
    ensures Translate(s', d', pn') == Translate(s, d', pn')
      || (Translate(s, d', pn') == None && d' == d && pn' == PageAt(PDX_UVPT, i))
  {
    hide Structure;
    PageSplit(pn', PDX_UVPT, i);
    if Present(Word(s, d', Pdx(pn'))) {
      DirectoryApart(s, d, d', Pdx(pn'));
    } else if d' != d || Pdx(pn') != i {
      DirectoryNot(s, d', t);
    }
  }

  lemma DirectoryNot(s: Phys, d: nat, t: nat)
    requires Structure(s) && Directory(s, d) && forall h :: Target(s, h) != Some(t)
    ensures d != t
  {
    assert Target(s, Dir(d)) != Some(t) && Target(s, Boot(d)) != Some(t);
  }

  /** Creating a page table adds no translation but the table's own page in the UVPT window. */
  lemma WalkView(s: Phys, loose: set<nat>, pinned: set<nat>, d: nat, pn: nat, d': nat, pn': nat)
    requires Inv(s, loose, pinned) && d in s.dirs && pn < USER_PAGES
    requires Directory(s, d') && pn' < ALL_PAGES
    ensures var s' := PgdirWalk(s, d, pn, true).s;
      Translate(s', d', pn') == Translate(s, d', pn') || (Translate(s, d', pn') == None && d' == d && pn' == WindowPage(pn))
  {
    assert Structure(s);
    hide Inv, Structure, PgdirWalk, HasNewTable, Translate;
    var s' := PgdirWalk(s, d, pn, true).s;
    UserPage(pn);
    WalkEffect(s, loose, pinned, d, pn);
    if s' != s {
      NewTableView(s, s', d, Pdx(pn), s.free[0], d', pn');
    }
  }

  /** page_insert updates exactly one key, with whatever word `perm` makes. The only other new translation is the
      read-only view of a page table that the call had to create. */
  lemma InsertView(s: Phys, loose: set<nat>, d: nat, pp: nat, pn: nat, perm: Perm, d': nat, pn': nat)
    requires Inv(s, loose, {}) && d in s.dirs && pn < USER_PAGES
    requires Directory(s, d') && pn' < ALL_PAGES
    ensures var r := PageInsert(s, d, pp, pn, perm);
      && (!r.ok ==> r.s == s)
      && (r.ok && d' == d && pn' == pn ==>
            Translate(r.s, d', pn').Some? && Translate(r.s, d', pn').value.entry == StoredEntry(pp, perm))
      && (r.ok && (d' != d || pn' != pn) ==>
            || Translate(r.s, d', pn') == Translate(s, d', pn')
            || (Translate(s, d', pn') == None && d' == d && pn' == WindowPage(pn)))
  {
    var w := PgdirWalk(s, d, pn, true);
    WalkKeeps(s, loose, {}, d, pn);
    WalkView(s, loose, {}, d, pn, d', pn');
    if w.frame.Some? {
      InsertAfterWalk(s, d, pp, pn, perm);
      InsertInTableView(w.s, d, pp, pn, perm, d', pn');
    }
  }

  lemma InsertInTableView(s: Phys, d: nat, pp: nat, pn: nat, perm: Perm, d': nat, pn': nat)
    requires Structure(s) && d in s.dirs && pn < USER_PAGES
    requires Present(Word(s, d, Pdx(pn))) && Directory(s, d') && pn' < ALL_PAGES
    ensures var r := PageInsert(s, d, pp, pn, perm);
      Translate(r.s, d', pn') ==
        if d' == d && pn' == pn then Some(Xlat(Word(s, d, Pdx(pn)).flags, StoredEntry(pp, perm)))
        else Translate(s, d', pn')
  {
    var t := Word(s, d, Pdx(pn)).frame;
    var r := PageInsert(s, d, pp, pn, perm);
    InsertStores(s, d, pp, pn, perm);
    StoreView(s, d, pn, StoredEntry(pp, perm), d', pn');
    CountsAside(Store(s, t, Ptx(pn), StoredEntry(pp, perm)), r.s);
  }
}
