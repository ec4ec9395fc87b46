/** Environment lifetimes conserve memory: what env_alloc takes and page_insert adds, env_free gives back. */
module Lifetime {
  import opened Mmu
  import opened Options
  import opened PageTables
  import opened RefCounts
  import opened AddressSpaces

  // ----- env_setup_vm -----

  /** `s'` is `s` with one more directory, whose user half is empty. */
  ghost predicate Gains(s: Phys, s': Phys, d: nat) {
    && s'.dirs == s.dirs + {d} && d !in s.dirs && d < |s.mem| && d != s.kdir
    && s'.kdir == s.kdir && s'.reserved == s.reserved && |s'.mem| == |s.mem|
    && (forall h :: Target(s', h) == if h == Dir(d) then Some(d) else Target(s, h))
    && (forall h :: Target(s, h) != Some(d))
    && (forall f: nat, k: nat :: f != d ==> Word(s', f, k) == Word(s, f, k))
    && (forall k: nat :: k < NPDENTRIES && k != PDX_UVPT ==> Word(s', d, k) == Word(s, s.kdir, k))
  }

  lemma DirectoryMade(s: Phys, d: nat)
    requires Structure(s) && d < |s.mem| && forall h :: Target(s, h) != Some(d)
    ensures var s' := MakeDirectory(s, d); Gains(s, s', d) && s'.free == s.free && s'.refs == IncRef(s, d).refs
    ensures KernelHalf(MakeDirectory(s, d)) && forall f :: 0 <= f < |s.mem| ==> |MakeDirectory(s, d).mem[f]| == NPTENTRIES
  {
    var s' := MakeDirectory(s, d);
    assert Target(s, Boot(s.kdir)) == Some(s.kdir) && Target(s, Dir(d)) != Some(d);
    UnreferencedFrame(s, d, s'.mem[d]);
    var m := s.(mem := s'.mem);
    assert s'.mem == s.mem[d := s'.mem[d]];
    assert forall f, k :: Word(s', f, k) == Word(m, f, k);
    assert forall i: nat :: i < NPDENTRIES && i != PDX_UVPT ==> Word(s', d, i) == Word(s, s.kdir, i);
    forall h ensures Target(s', h) == if h == Dir(d) then Some(d) else Target(s, h) {
      assert Target(m, h) == Target(s, h);
    }
  }

  /** A loose, unreferenced frame becomes a directory. */
  lemma NewDirectory(s: Phys, loose: set<nat>, d: nat)
    requires Inv(s, loose, {}) && d in loose
    ensures Inv(MakeDirectory(s, d), loose - {d}, {}) && Gains(s, MakeDirectory(s, d), d)
  {
    var s' := MakeDirectory(s, d);
    Unreferenced(s, loose, {}, d);
    assert d < |s.mem| && s.refs[d] == 0;
    DirectoryMade(s, d);
    hide Target, MakeDirectory, Word;
    Gain(s, s', loose, {}, Dir(d), d);
  }

  lemma GainsFromEqual(s: Phys, a: Phys, s': Phys, d: nat)
    requires Gains(a, s', d) && SameSpace(s, a)
    requires forall h :: Target(a, h) == Target(s, h)
    requires forall f: nat, k: nat :: f != d ==> Word(a, f, k) == Word(s, f, k)
    ensures Gains(s, s', d)
  {
  }

  lemma SetupUnfolds(s: Phys)
    ensures EnvSetupVm(s) == if s.free == [] then Got(s, None)
      else Got(MakeDirectory(PageAlloc(s, true).s, s.free[0]), Some(s.free[0]))
    ensures s.free != [] ==> [s.free[0]] + MakeDirectory(PageAlloc(s, true).s, s.free[0]).free == s.free
  {
  }

  /** env_setup_vm: on failure nothing changed; on success the only new reference is the directory's own. */
  lemma SetupKeeps(s: Phys)
    requires Sound(s)
    ensures var r := EnvSetupVm(s);
      && (r.frame.None? ==> r.s == s && s.free == [])
      && (r.frame.Some? ==> Sound(r.s) && Gains(s, r.s, r.frame.value) && s.free == [r.frame.value] + r.s.free)
  {
    SetupUnfolds(s);
    if s.free != [] {
      var d := s.free[0];
      var a := PageAlloc(s, true).s;
      AllocKeeps(s, {}, {}, true);
      assert {} + {d} == {d} && {d} - {d} == {};
      hide Inv, EnvSetupVm, MakeDirectory, PageAlloc, Gains;
      NewDirectory(a, {d}, d);
      GainsFromEqual(s, a, MakeDirectory(a, d), d);
    }
  }

  // ----- env_free -----

  /** The references that die with directory `d`. */
  predicate OwnedBy(h: Ref, d: nat) {
    (h.Dir? || h.Pde? || h.Pte?) && h.dir == d
  }

  /** `s'` is sound, with the references of `s` minus those in `gone`. */
  ghost predicate Sheds(s: Phys, s': Phys, gone: iset<Ref>) {
    && Sound(s')
    && SameSpace(s, s')
    && forall h :: Target(s', h) == if h in gone then None else Target(s, h)
  }

  lemma ShedsTwice(s: Phys, s1: Phys, s2: Phys, g1: iset<Ref>, g2: iset<Ref>)
    requires Sheds(s, s1, g1) && Sheds(s1, s2, g2)
    ensures Sheds(s, s2, g1 + g2)
  {
    hide Sound;
  }

  /** The entries j.. of the table at slot i, and the slots i.. of the directory with their tables. */
  ghost function EntriesFrom(d: nat, i: nat, j: nat): iset<Ref> {
    iset h: Ref | h.Pte? && h.dir == d && h.i == i && h.j >= j
  }

  ghost function SlotsFrom(d: nat, i: nat): iset<Ref> {
    iset h: Ref | (h.Pde? || h.Pte?) && h.dir == d && h.i >= i
  }

  /** One turn of env_free's inner loop. */
  lemma UnmapStep(s: Phys, d: nat, i: nat, j: nat)
    requires Sound(s) && d in s.dirs && i < PDX_UTOP && j < NPTENTRIES && Present(Word(s, d, i))
    ensures var s' := if Present(Word(s, Word(s, d, i).frame, j)) then PageRemove(s, d, PageAt(i, j)) else s;
      Sheds(s, s', iset{Pte(d, i, j)}) && Word(s', d, i) == Word(s, d, i)
  {
    PageSplit(PageAt(i, j), i, j);
    RemoveKeeps(s, {}, {}, d, PageAt(i, j));
  }

  lemma {:induction false} UnmapKeeps(s: Phys, d: nat, i: nat, j: nat)
    requires Sound(s) && d in s.dirs && i < PDX_UTOP && Present(Word(s, d, i))
    ensures Sheds(s, UnmapFrom(s, d, i, j), EntriesFrom(d, i, j)) && Word(UnmapFrom(s, d, i, j), d, i) == Word(s, d, i)
    decreases NPTENTRIES - j
  {
    if j < NPTENTRIES {
      UnmapStep(s, d, i, j);
      var s1 := if Present(Word(s, Word(s, d, i).frame, j)) then PageRemove(s, d, PageAt(i, j)) else s;
      assert UnmapFrom(s, d, i, j) == UnmapFrom(s1, d, i, j + 1);
      UnmapKeeps(s1, d, i, j + 1);
      hide *;
      ShedsTwice(s, s1, UnmapFrom(s1, d, i, j + 1), iset{Pte(d, i, j)}, EntriesFrom(d, i, j + 1));
      NextEntry(d, i, j);
    } else {
      TablesEndAtLimit(s);
    }
  }

  lemma NextEntry(d: nat, i: nat, j: nat)
    ensures EntriesFrom(d, i, j) == iset{Pte(d, i, j)} + EntriesFrom(d, i, j + 1)
  {
  }

  lemma TablesEndAtLimit(s: Phys)
    requires Shape(s)
    ensures forall h: Ref :: h.Pte? && h.j >= NPTENTRIES ==> Target(s, h) == None
  {
  }

  /** The memory after a table is dropped: one directory slot fewer. */
  lemma DropTableTargets(s: Phys, d: nat, i: nat)
    requires Structure(s) && d in s.dirs && i < PDX_UTOP && Present(Word(s, d, i))
    requires forall j: nat :: Target(s, Pte(d, i, j)) == None
    ensures var s' := DropTable(s, d, i);
      && SameSpace(s, s') && KernelHalf(s')
      && (forall h :: Target(s', h) == if h == Pde(d, i) then None else Target(s, h))
  {
    var m := Store(s, d, i, ABSENT);
    var s' := DropTable(s, d, i);
    assert Target(s, Dir(d)) == Some(d) && Target(s, Boot(s.kdir)) == Some(s.kdir);
    CountsAside(m, s');
    forall h ensures Target(s', h) == if h == Pde(d, i) then None else Target(s, h) {
      if h.Pte? && h.dir in s.dirs && h.i < PDX_UTOP && Present(Word(s, h.dir, h.i)) {
        assert Target(s, Pde(h.dir, h.i)) != Some(d);
      }
    }
    SameTopLevel(s, s');
  }

  lemma DropTableKeeps(s: Phys, d: nat, i: nat)
    requires Sound(s) && d in s.dirs && i < PDX_UTOP && Present(Word(s, d, i))
    requires forall j: nat :: Target(s, Pte(d, i, j)) == None
    ensures Sheds(s, DropTable(s, d, i), iset{Pde(d, i)})
  {
    var t := Word(s, d, i).frame;
    UserTable(s, d, i);
    DropTableTargets(s, d, i);
    assert Target(s, Pde(d, i)) == Some(t);
    assert DropTable(s, d, i).refs == PageDecref(s, t).refs && DropTable(s, d, i).free == PageDecref(s, t).free;
    hide Target;
    Lose(s, DropTable(s, d, i), {}, {}, Pde(d, i), t);
  }

  /** One turn of env_free's outer loop. */
  lemma FreeTableStep(s: Phys, d: nat, i: nat)
    requires Sound(s) && d in s.dirs && i < PDX_UTOP && Present(Word(s, d, i))
    ensures Sheds(s, DropTable(UnmapFrom(s, d, i, 0), d, i), EntriesFrom(d, i, 0) + iset{Pde(d, i)})
  {
    var s1 := UnmapFrom(s, d, i, 0);
    UnmapKeeps(s, d, i, 0);
    assert forall j: nat :: Pte(d, i, j) in EntriesFrom(d, i, 0);
    DropTableKeeps(s1, d, i);
    ShedsTwice(s, s1, DropTable(s1, d, i), EntriesFrom(d, i, 0), iset{Pde(d, i)});
  }

  lemma {:induction false} FreeTablesKeeps(s: Phys, d: nat, i: nat)
    requires Sound(s) && d in s.dirs
    ensures Sheds(s, FreeTablesFrom(s, d, i), SlotsFrom(d, i))
    decreases PDX_UTOP - i
  {
    if i < PDX_UTOP {
      var s1 := if Present(Word(s, d, i)) then DropTable(UnmapFrom(s, d, i, 0), d, i) else s;
      var gone := EntriesFrom(d, i, 0) + iset{Pde(d, i)};
      if Present(Word(s, d, i)) {
        FreeTableStep(s, d, i);
      }
      assert FreeTablesFrom(s, d, i) == FreeTablesFrom(s1, d, i + 1);
      assert Sheds(s, s1, gone);
      FreeTablesKeeps(s1, d, i + 1);
      hide *;
      ShedsTwice(s, s1, FreeTablesFrom(s1, d, i + 1), gone, SlotsFrom(d, i + 1));
      NextSlot(d, i);
    }
  }

  lemma NextSlot(d: nat, i: nat)
    ensures SlotsFrom(d, i) == EntriesFrom(d, i, 0) + iset{Pde(d, i)} + SlotsFrom(d, i + 1)
  {
  }

  lemma DirectoryTargets(s: Phys, d: nat)
    requires forall h :: OwnedBy(h, d) && h != Dir(d) ==> Target(s, h) == None
    ensures forall h :: Target(s.(dirs := s.dirs - {d}), h) == if h == Dir(d) then None else Target(s, h)
  {
    assert forall h :: OwnedBy(h, d) ==> Target(s.(dirs := s.dirs - {d}), h) == None;
  }

  lemma DropDirectoryKeeps(s: Phys, d: nat)
    requires Sound(s) && d in s.dirs
    requires forall h :: OwnedBy(h, d) && h != Dir(d) ==> Target(s, h) == None
    ensures var s' := DropDirectory(s, d);
      && Sound(s') && s'.dirs == s.dirs - {d} && s'.kdir == s.kdir && s'.reserved == s.reserved && s'.mem == s.mem
      && (forall h :: Target(s', h) == if h == Dir(d) then None else Target(s, h))
  {
    var m := s.(dirs := s.dirs - {d});
    var s' := DropDirectory(s, d);
    assert Target(s, Dir(d)) == Some(d);
    CountsAside(m, s');
    DirectoryTargets(s, d);
    hide Target, Word;
    Lose(s, s', {}, {}, Dir(d), d);
    SameTopLevel(s, s');
  }

  /** env_free removes exactly the references of its environment and keeps the state sound. */
  lemma EnvFreeKeeps(s: Phys, d: nat)
    requires Sound(s) && d in s.dirs
    ensures var s' := EnvFree(s, d);
      && Sound(s') && s'.dirs == s.dirs - {d} && s'.kdir == s.kdir && s'.reserved == s.reserved && |s'.mem| == |s.mem|
      && (forall h :: Target(s', h) == if OwnedBy(h, d) then None else Target(s, h))
  {
    FreeTablesKeeps(s, d, 0);
    DropDirectoryKeeps(FreeTablesFrom(s, d, 0), d);
  }

  /** Conservation: after env_free a page is on the free list, once, exactly when every reference to it
      belonged to the environment; every other page has lost that environment's references and no others. */
  lemma EnvFreeConserves(s: Phys, d: nat, p: nat)
    requires Sound(s) && d in s.dirs && p < |s.mem|
    ensures var s' := EnvFree(s, d);
      && (p in s'.free <==> forall h :: Target(s, h) == Some(p) ==> OwnedBy(h, d))
      && multiset(s'.free)[p] <= 1
      && |s'.refs| == |s.refs| && s'.refs[p] == |set h | h in Holders(s, p) && !OwnedBy(h, d)|
  {
    var s' := EnvFree(s, d);
    EnvFreeKeeps(s, d);
    assert Holders(s', p) == set h | h in Holders(s, p) && !OwnedBy(h, d);
    forall h ensures Target(s', h) == Some(p) ==> h in Holders(s', p) {
      if Target(s', h) == Some(p) { TargetBounded(s', h); }
    }
    assert p in s'.free <==> Holders(s', p) == {};
    OnceOnly(s'.free, p);
  }

  lemma {:induction false} OnceOnly(q: seq<nat>, p: nat)
    requires NoDuplicates(q)
    ensures multiset(q)[p] <= 1
  {
    if q != [] {
      var k := |q| - 1;
      assert q == q[..k] + [q[k]];
      OnceOnly(q[..k], p);
      assert p in multiset(q[..k]) ==> p in q[..k];
    }
  }

  // ----- what other address spaces see of it -----

  /** Every directory but `d` translates every page as before. */
  ghost predicate SameViews(s: Phys, s': Phys, d: nat) {
    forall d': nat, pn: nat :: Directory(s, d') && d' != d && pn < ALL_PAGES ==> Translate(s', d', pn) == Translate(s, d', pn)
  }

  /** A new environment starts with an empty user half and disturbs no other translation. */
  lemma SetupView(s: Phys)
    requires Sound(s) && EnvSetupVm(s).frame.Some?
    ensures var s' := EnvSetupVm(s).s; var d := EnvSetupVm(s).frame.value;
      && SameViews(s, s', d)
      && (forall pn: nat :: pn < USER_PAGES ==> Translate(s', d, pn) == None)
  {
    SetupKeeps(s);
    GainsView(s, EnvSetupVm(s).s, EnvSetupVm(s).frame.value);
  }

  lemma GainsView(s: Phys, s': Phys, d: nat)
    requires Structure(s) && Gains(s, s', d)
    ensures SameViews(s, s', d)
    ensures forall pn: nat :: pn < USER_PAGES ==> Translate(s', d, pn) == None
  {
    forall d': nat, pn: nat | Directory(s, d') && d' != d && pn < ALL_PAGES
      ensures Translate(s', d', pn) == Translate(s, d', pn)
    {
      if Present(Word(s, d', Pdx(pn))) { TableOf(s, d', Pdx(pn)); }
    }
    forall pn: nat | pn < USER_PAGES ensures Translate(s', d, pn) == None {
      UserPage(pn);
      assert !Present(Word(s, s.kdir, Pdx(pn)));
    }
  }

  /** A frame a walk goes through is referenced: as a table, or as the directory itself. */
  lemma TableOf(s: Phys, d: nat, i: nat)
    requires Structure(s) && Directory(s, d) && i < NPDENTRIES && Present(Word(s, d, i))
    ensures var t := Word(s, d, i).frame;
      (i == PDX_UVPT && t == d)
      || (i < PDX_UTOP && Target(s, Pde(d, i)) == Some(t))
      || (PDX_UTOP <= i && i != PDX_UVPT && Target(s, Kern(i)) == Some(t))
  {
    assert i >= PDX_UTOP && i != PDX_UVPT ==> Word(s, d, i) == Word(s, s.kdir, i);
  }

  /** Handing out a free page, zeroed or not, disturbs no translation. */
  lemma AllocView(s: Phys, zero: bool, d: nat, pn: nat)
    requires Sound(s) && s.free != [] && Directory(s, d) && pn < ALL_PAGES
    ensures Translate(PageAlloc(s, zero).s, d, pn) == Translate(s, d, pn)
  {
    AllocKeeps(s, {}, {}, zero);
    if Present(Word(s, d, Pdx(pn))) {
      TableOf(s, d, Pdx(pn));
    }
  }

  lemma DropTableView(s: Phys, d: nat, i: nat)
    requires Sound(s) && d in s.dirs && i < PDX_UTOP && Present(Word(s, d, i))
    ensures SameViews(s, DropTable(s, d, i), d)
  {
    var s' := DropTable(s, d, i);
    assert forall f: nat, k: nat :: f != d ==> Word(s', f, k) == Word(s, f, k);
    forall d': nat, pn: nat | Directory(s, d') && d' != d && pn < ALL_PAGES
      ensures Translate(s', d', pn) == Translate(s, d', pn)
    {
      if Present(Word(s, d', Pdx(pn))) {
        TableOf(s, d', Pdx(pn));
        assert Target(s, Dir(d)) == Some(d);
      }
    }
  }

  lemma {:induction false} UnmapView(s: Phys, d: nat, i: nat, j: nat)
    requires Sound(s) && d in s.dirs && i < PDX_UTOP && Present(Word(s, d, i))
    ensures SameViews(s, UnmapFrom(s, d, i, j), d)
    decreases NPTENTRIES - j
  {
    if j < NPTENTRIES {
      var s1 := if Present(Word(s, Word(s, d, i).frame, j)) then PageRemove(s, d, PageAt(i, j)) else s;
      UnmapStep(s, d, i, j);
      PageSplit(PageAt(i, j), i, j);
      forall d': nat, pn: nat | Directory(s, d') && d' != d && pn < ALL_PAGES
        ensures Translate(s1, d', pn) == Translate(s, d', pn)
      {
        RemoveView(s, d, PageAt(i, j), d', pn);
      }
      UnmapView(s1, d, i, j + 1);
    }
  }

  lemma {:induction false} FreeTablesView(s: Phys, d: nat, i: nat)
    requires Sound(s) && d in s.dirs
    ensures SameViews(s, FreeTablesFrom(s, d, i), d)
    decreases PDX_UTOP - i
  {
    if i < PDX_UTOP {
      if Present(Word(s, d, i)) {
        var s1 := UnmapFrom(s, d, i, 0);
        UnmapView(s, d, i, 0);
        UnmapKeeps(s, d, i, 0);
        DropTableView(s1, d, i);
        FreeTableStep(s, d, i);
        FreeTablesView(DropTable(s1, d, i), d, i + 1);
      } else {
        FreeTablesView(s, d, i + 1);
      }
    }
  }

  /** env_free leaves every translation of every other directory as it was. */
  lemma EnvFreeView(s: Phys, d: nat)
    requires Sound(s) && d in s.dirs
    ensures SameViews(s, EnvFree(s, d), d)
  {
    FreeTablesView(s, d, 0);
    CountsAside(FreeTablesFrom(s, d, 0).(dirs := EnvFree(s, d).dirs), EnvFree(s, d));
  }
}
