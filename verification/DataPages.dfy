/** Frames that hold an environment's data: no kernel operation changes a word of them, and a store into one changes no
    reference and no translation. */
module DataPages {
  import opened Mmu
  import opened Options
  import opened PageTables
  import opened RefCounts
  import opened AddressSpaces
  import opened Lifetime

  /** Frame `p` is mapped below UTOP by some environment. */
  ghost predicate Data(s: Phys, p: nat) {
    exists h: Ref :: h.Pte? && Target(s, h) == Some(p)
  }

  ghost predicate SamePage(s: Phys, s': Phys, p: nat) {
    p < |s.mem| == |s'.mem| && s'.mem[p] == s.mem[p]
  }

  /** Every word of every data frame is as before. */
  ghost predicate DataKept(s: Phys, s': Phys) {
    forall p: nat :: Data(s, p) ==> SamePage(s, s', p)
  }

  /** Every word of the frame is zero. */
  ghost predicate Blank(s: Phys, f: nat) {
    f < |s.mem| && forall i: nat :: Word(s, f, i) == ABSENT
  }

  /** A data frame is no directory and no page table. */
  lemma DataIsNoTable(s: Phys, p: nat)
    requires Structure(s) && Data(s, p)
    ensures p < |s.mem| && !Directory(s, p)
    ensures forall d, i: nat :: d in s.dirs && i < PDX_UTOP && Present(Word(s, d, i)) ==> Word(s, d, i).frame != p
    ensures forall i: nat :: PDX_UTOP <= i < NPDENTRIES && i != PDX_UVPT && Present(Word(s, s.kdir, i)) ==> Word(s, s.kdir, i).frame != p
  {
    var h: Ref :| h.Pte? && Target(s, h) == Some(p);
    assert Target(s, Dir(p)) != Some(p) && Target(s, Boot(p)) != Some(p);
    forall d, i: nat | d in s.dirs && i < PDX_UTOP && Present(Word(s, d, i)) ensures Word(s, d, i).frame != p {
      assert Target(s, Pde(d, i)) == Some(Word(s, d, i).frame);
    }
    forall i: nat | PDX_UTOP <= i < NPDENTRIES && i != PDX_UVPT && Present(Word(s, s.kdir, i)) ensures Word(s, s.kdir, i).frame != p {
      assert Target(s, Kern(i)) == Some(Word(s, s.kdir, i).frame);
    }
  }

  lemma DataIsNotFree(s: Phys, loose: set<nat>, pinned: set<nat>, p: nat)
    requires Inv(s, loose, pinned) && Data(s, p)
    ensures p !in s.free && p !in loose
  {
    var h: Ref :| h.Pte? && Target(s, h) == Some(p);
    TargetBounded(s, h);
    assert h in Holders(s, p);
  }

  // ----- page_insert and page_remove -----

  /** page_insert writes to the directory, to the page table and, if that is missing, to the first free frame. */
  lemma InsertWrites(s: Phys, loose: set<nat>, d: nat, pp: nat, pn: nat, perm: Perm, p: nat)
    requires Inv(s, loose, {}) && d in s.dirs && pn < USER_PAGES && p < |s.mem|
    requires p != d && p !in s.free && (Present(Word(s, d, Pdx(pn))) ==> Word(s, d, Pdx(pn)).frame != p)
    ensures SamePage(s, PageInsert(s, d, pp, pn, perm).s, p)
  {
    var w := PgdirWalk(s, d, pn, true);
    WalkKeeps(s, loose, {}, d, pn);
    WalkWrites(s, d, pn, p);
    InsertAfterWalk(s, d, pp, pn, perm);
    if w.frame.Some? {
      InsertStores(w.s, d, pp, pn, perm);
      assert w.frame.value != p;
    }
  }

  lemma WalkWrites(s: Phys, d: nat, pn: nat, p: nat)
    requires p < |s.mem| && p != d && p !in s.free
    ensures SamePage(s, PgdirWalk(s, d, pn, true).s, p)
  {
    assert s.free != [] ==> s.free[0] in s.free;
  }

  lemma InsertKeepsData(s: Phys, d: nat, pp: nat, pn: nat, perm: Perm)
    requires Sound(s) && d in s.dirs && pn < USER_PAGES
    ensures DataKept(s, PageInsert(s, d, pp, pn, perm).s)
  {
    forall p: nat | Data(s, p) ensures SamePage(s, PageInsert(s, d, pp, pn, perm).s, p) {
      DataIsNoTable(s, p);
      DataIsNotFree(s, {}, {}, p);
      UserPage(pn);
      hide Inv, PageInsert;
      InsertWrites(s, {}, d, pp, pn, perm, p);
    }
  }

  lemma RemoveWrites(s: Phys, d: nat, pn: nat, p: nat)
    requires p < |s.mem| && (Present(Word(s, d, Pdx(pn))) ==> Word(s, d, Pdx(pn)).frame != p)
    ensures SamePage(s, PageRemove(s, d, pn), p)
  {
  }

  lemma RemoveKeepsData(s: Phys, d: nat, pn: nat)
    requires Structure(s) && d in s.dirs && pn < USER_PAGES
    ensures DataKept(s, PageRemove(s, d, pn))
  {
    forall p: nat | Data(s, p) ensures SamePage(s, PageRemove(s, d, pn), p) {
      DataIsNoTable(s, p);
      UserPage(pn);
      hide Structure, PageRemove;
      RemoveWrites(s, d, pn, p);
    }
  }

  // ----- page_alloc: the frame handed out is zero -----

  /** page_alloc(1) clears every word of the frame it hands out, and touches no other. */
  lemma AllocZeroes(s: Phys)
    requires Shape(s) && s.free != []
    ensures var a, f := PageAlloc(s, true).s, s.free[0];
      && PageAlloc(s, true).frame == Some(f) && f < |a.mem| == |s.mem|
      && (forall i: nat :: Word(a, f, i) == ABSENT)
      && a.mem[f] == ZeroPage() && forall p :: 0 <= p < |s.mem| && p != f ==> a.mem[p] == s.mem[p]
  {
  }

  /** The frame that page_alloc(1) cleared is still clear once page_insert has mapped it, wherever that needed a table. */
  lemma NewPageStaysZero(s: Phys, d: nat, pn: nat, perm: Perm)
    requires Sound(s) && s.free != [] && d in s.dirs && pn < USER_PAGES
    ensures var a, f := PageAlloc(s, true).s, s.free[0]; SamePage(a, PageInsert(a, d, f, pn, perm).s, f)
  {
    var a, f := PageAlloc(s, true).s, s.free[0];
    assert f in s.free && f !in s.free[1..];
    Unreferenced(s, {}, {}, f);
    AllocKeeps(s, {}, {}, true);
    UserPage(pn);
    assert Target(a, Dir(d)) == Some(d) && Target(a, Pde(d, Pdx(pn))) != Some(f);
    assert {} + {f} == {f};
    hide Inv, PageInsert, PageAlloc;
    InsertWrites(a, {f}, d, f, pn, perm, f);
  }

  lemma AllocInsertKeepsData(s: Phys, zero: bool, d: nat, pn: nat, perm: Perm)
    requires Sound(s) && s.free != [] && d in s.dirs && pn < USER_PAGES
    ensures var a, f := PageAlloc(s, zero).s, s.free[0]; DataKept(s, PageInsert(a, d, f, pn, perm).s) && DataKept(s, a)
  {
    var a, f := PageAlloc(s, zero).s, s.free[0];
    AllocKeeps(s, {}, {}, zero);
    AllocElsewhere(s, zero);
    assert f in s.free && {} + {f} == {f};
    forall p: nat | Data(s, p) ensures SamePage(s, PageInsert(a, d, f, pn, perm).s, p) && SamePage(s, a, p) {
      DataIsNoTable(s, p);
      DataIsNotFree(s, {}, {}, p);
      StillNoTable(s, a, d, pn, p);
      hide Inv, PageInsert, PageAlloc;
      InsertWrites(a, {f}, d, f, pn, perm, p);
    }
  }

  lemma AllocElsewhere(s: Phys, zero: bool)
    requires Shape(s) && s.free != []
    ensures var a := PageAlloc(s, zero).s; |a.mem| == |s.mem| && forall p :: 0 <= p < |s.mem| && p != s.free[0] ==> a.mem[p] == s.mem[p]
  {
  }

  lemma StillNoTable(s: Phys, a: Phys, d: nat, pn: nat, p: nat)
    requires Structure(s) && d in s.dirs && a.dirs == s.dirs && pn < USER_PAGES && Data(s, p) && forall h :: Target(a, h) == Target(s, h)
    ensures p != d && (Present(Word(a, d, Pdx(pn))) ==> Word(a, d, Pdx(pn)).frame != p)
  {
    UserPage(pn);
    DataIsNoTable(s, p);
    var pde := Pde(d, Pdx(pn));
    assert Target(a, pde) == Target(s, pde);
    assert Present(Word(a, d, Pdx(pn))) ==> Target(a, pde) == Some(Word(a, d, Pdx(pn)).frame);
    hide Structure;
  }

  // ----- env_setup_vm and env_free -----

  lemma SetupKeepsData(s: Phys)
    requires Sound(s)
    ensures DataKept(s, EnvSetupVm(s).s)
  {
    forall p: nat | Data(s, p) ensures SamePage(s, EnvSetupVm(s).s, p) {
      DataIsNoTable(s, p);
      DataIsNotFree(s, {}, {}, p);
      hide Inv;
      assert s.free != [] ==> s.free[0] in s.free;
    }
  }

  lemma {:induction false} UnmapWrites(s: Phys, d: nat, i: nat, j: nat, p: nat)
    requires Sound(s) && d in s.dirs && i < PDX_UTOP && Present(Word(s, d, i)) && p < |s.mem| && Word(s, d, i).frame != p
    ensures SamePage(s, UnmapFrom(s, d, i, j), p)
    decreases NPTENTRIES - j
  {
    if j < NPTENTRIES {
      var s1 := if Present(Word(s, Word(s, d, i).frame, j)) then PageRemove(s, d, PageAt(i, j)) else s;
      UnmapStep(s, d, i, j);
      PageSplit(PageAt(i, j), i, j);
      RemoveWrites(s, d, PageAt(i, j), p);
      assert UnmapFrom(s, d, i, j) == UnmapFrom(s1, d, i, j + 1);
      assert Sound(s1) && s1.dirs == s.dirs;
      hide Inv, PageRemove, UnmapFrom, Sheds;
      UnmapWrites(s1, d, i, j + 1, p);
    }
  }

  lemma FreeTableWrites(s: Phys, d: nat, i: nat, p: nat)
    requires Sound(s) && d in s.dirs && i < PDX_UTOP && Present(Word(s, d, i)) && p < |s.mem| && p != d
    requires Word(s, d, i).frame != p
    ensures SamePage(s, DropTable(UnmapFrom(s, d, i, 0), d, i), p)
  {
    UnmapWrites(s, d, i, 0, p);
    hide Inv, UnmapFrom;
  }

  /** env_free writes to the directory and its page tables alone. */
  lemma {:induction false} FreeTablesWrites(s: Phys, d: nat, i: nat, p: nat)
    requires Sound(s) && d in s.dirs && p < |s.mem| && p != d && forall k: nat :: Target(s, Pde(d, k)) != Some(p)
    ensures SamePage(s, FreeTablesFrom(s, d, i), p)
    decreases PDX_UTOP - i
  {
    hide *;
    NextTable(s, d, i);
    if i < PDX_UTOP {
      if Present(Word(s, d, i)) {
        var s1 := DropTable(UnmapFrom(s, d, i, 0), d, i);
        FreeTableWrites(s, d, i, p);
        FreeTableStep(s, d, i);
        ShedTargets(s, s1, EntriesFrom(d, i, 0) + iset{Pde(d, i)});
        FreeTablesWrites(s1, d, i + 1, p);
        SameTwice(s, s1, FreeTablesFrom(s1, d, i + 1), p);
      } else {
        FreeTablesWrites(s, d, i + 1, p);
      }
    } else {
      SameAsItself(s, p);
    }
  }

  lemma NextTable(s: Phys, d: nat, i: nat)
    ensures FreeTablesFrom(s, d, i) ==
      if i >= PDX_UTOP then s
      else FreeTablesFrom(if Present(Word(s, d, i)) then DropTable(UnmapFrom(s, d, i, 0), d, i) else s, d, i + 1)
    ensures d in s.dirs && i < PDX_UTOP && Present(Word(s, d, i)) ==> Target(s, Pde(d, i)) == Some(Word(s, d, i).frame)
  {
  }

  lemma ShedTargets(s: Phys, s': Phys, gone: iset<Ref>)
    requires Sheds(s, s', gone)
    ensures Sound(s') && s'.dirs == s.dirs && |s'.mem| == |s.mem|
    ensures forall h :: Target(s', h) == None || Target(s', h) == Target(s, h)
  {
    hide Inv;
  }

  lemma SameTwice(s: Phys, s1: Phys, s2: Phys, p: nat)
    requires SamePage(s, s1, p) && SamePage(s1, s2, p)
    ensures SamePage(s, s2, p)
  {
  }

  lemma SameAsItself(s: Phys, p: nat)
    requires p < |s.mem|
    ensures SamePage(s, s, p)
  {
  }

  lemma FreeKeepsData(s: Phys, d: nat)
    requires Sound(s) && d in s.dirs
    ensures DataKept(s, EnvFree(s, d))
  {
    forall p: nat | Data(s, p) ensures SamePage(s, EnvFree(s, d), p) {
      DataIsNoTable(s, p);
      var h: Ref :| h.Pte? && Target(s, h) == Some(p);
      assert forall k: nat :: Target(s, Pde(d, k)) != Some(p);
      hide Inv, FreeTablesFrom, Target;
      FreeTablesWrites(s, d, 0, p);
    }
  }

  // ----- stores of user programs -----

  /** Whatever is stored in a data frame, no reference, no count and no translation changes. */
  lemma StoreInData(s: Phys, p: nat, page: seq<Entry>)
    requires Sound(s) && Data(s, p) && |page| == NPTENTRIES
    ensures p < |s.mem| && var s' := s.(mem := s.mem[p := page]);
      && Sound(s')
      && (forall h :: Target(s', h) == Target(s, h))
      && (forall d, pn: nat :: Directory(s, d) && pn < ALL_PAGES ==> Translate(s', d, pn) == Translate(s, d, pn))
  {
    DataIsNoTable(s, p);
    var s' := s.(mem := s.mem[p := page]);
    assert forall f, k :: f != p ==> Word(s', f, k) == Word(s, f, k);
    StoreTargets(s, s', p);
    forall d, pn: nat | Directory(s, d) && pn < ALL_PAGES ensures Translate(s', d, pn) == Translate(s, d, pn) {
      if Present(Word(s, d, Pdx(pn))) {
        TableOf(s, d, Pdx(pn));
        assert PDX_UTOP <= Pdx(pn) && Pdx(pn) != PDX_UVPT ==> Word(s, d, Pdx(pn)) == Word(s, s.kdir, Pdx(pn));
        assert Pdx(pn) < PDX_UTOP ==> d != s.kdir;
      }
    }
    SoundFromTargets(s, s');
  }

  lemma StoreTargets(s: Phys, s': Phys, p: nat)
    requires Structure(s) && Data(s, p) && s' == s.(mem := s'.mem)
    requires forall f, k :: f != p ==> Word(s', f, k) == Word(s, f, k)
    ensures forall h :: Target(s', h) == Target(s, h)
  {
    DataIsNoTable(s, p);
    KdirIsNoData(s, p);
    assert forall d :: d in s.dirs ==> d != p;
    hide Structure;
  }

  lemma KdirIsNoData(s: Phys, p: nat)
    requires Structure(s) && Data(s, p)
    ensures p != s.kdir
  {
    DataIsNoTable(s, p);
  }

  lemma SoundFromTargets(s: Phys, s': Phys)
    requires Sound(s) && s' == s.(mem := s'.mem) && |s'.mem| == |s.mem| && forall f :: 0 <= f < |s.mem| ==> |s'.mem[f]| == NPTENTRIES
    requires forall h :: Target(s', h) == Target(s, h)
    requires forall d, k: nat {:trigger Word(s', d, k)} :: Directory(s, d) ==> Word(s', d, k) == Word(s, d, k)
    ensures Sound(s')
  {
    forall q | 0 <= q < |s.mem| ensures Holders(s', q) == Holders(s, q) {
      SameReferences(s, s', q);
    }
    SameTopLevel(s, s');
  }
}
