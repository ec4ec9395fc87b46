/** Reference counts stay exact and tables stay unshared, one operation at a time. */
module RefCounts {
  import opened Mmu
  import opened Options
  import opened PageTables

  /** The machine, the directories and the withheld pages are the same. */
  predicate SameSpace(s: Phys, s': Phys) {
    |s'.mem| == |s.mem| && s'.kdir == s.kdir && s'.dirs == s.dirs && s'.reserved == s.reserved
  }

  ghost predicate Structure(s: Phys) {
    Shape(s) && InRange(s) && Exclusive(s) && KernelHalf(s)
  }

  /** Only `h` has a different target. */
  ghost predicate Retargets(s: Phys, s': Phys, h: Ref) {
    && |s'.mem| == |s.mem|
    && Bounded(|s.mem|, h)
    && forall k :: k != h ==> Target(s', k) == Target(s, k)
  }

  // ----- counting -----

  /** When a single reference changes its target, only the two pages it names change counts. */
  lemma OneReference(s: Phys, s': Phys, h: Ref, p: nat)
    requires Retargets(s, s', h)
    ensures |Holders(s', p)| + (if Target(s, h) == Some(p) then 1 else 0)
         == |Holders(s, p)| + (if Target(s', h) == Some(p) then 1 else 0)
  {
    var rest := Holders(s, p) - {h};
    assert Holders(s, p) == if Target(s, h) == Some(p) then rest + {h} else rest;
    assert Holders(s', p) == if Target(s', h) == Some(p) then rest + {h} else rest;
  }

  lemma SameReferences(s: Phys, s': Phys, p: nat)
    requires |s.mem| == |s'.mem|
    requires forall k :: Target(s', k) == Target(s, k)
    ensures Holders(s', p) == Holders(s, p)
  {
  }

  lemma TargetBounded(s: Phys, h: Ref)
    requires Shape(s) && Target(s, h).Some?
    ensures Bounded(|s.mem|, h)
  {
  }

  /** A page without a count has no reference at all. */
  lemma Unreferenced(s: Phys, loose: set<nat>, pinned: set<nat>, p: nat)
    requires Inv(s, loose, pinned) && p < |s.mem| && s.refs[p] == 0
    ensures p !in pinned && forall h :: Target(s, h) != Some(p)
  {
    forall h ensures Target(s, h) == Some(p) ==> h in Holders(s, p) {
      if Target(s, h) == Some(p) { TargetBounded(s, h); }
    }
  }

  /** References are read off memory alone, not off counts or the free list. */
  lemma CountsAside(s: Phys, s': Phys)
    requires s' == s.(refs := s'.refs, free := s'.free)
    ensures forall h :: Target(s', h) == Target(s, h)
    ensures forall f, k :: Word(s', f, k) == Word(s, f, k)
  {
  }

  /** A loose page gains its first reference. */
  lemma Gain(s: Phys, s': Phys, loose: set<nat>, pinned: set<nat>, h: Ref, t: nat)
    requires Inv(s, loose, pinned) && t in loose
    requires s'.refs == s.refs[t := 1] && s'.free == s.free && Retargets(s, s', h)
    requires Target(s, h) == None && Target(s', h) == Some(t)
    ensures InRange(s') && Exclusive(s') && Exact(s', pinned) && FreeExact(s', loose - {t})
  {
    Unreferenced(s, loose, pinned, t);
    forall p | 0 <= p < |s.mem| ensures s'.refs[p] == |Holders(s', p)| + (if p in pinned then 1 else 0) {
      OneReference(s, s', h, p);
    }
  }

  /** A page loses a reference through page_decref, and is freed if it was the last. */
  lemma Lose(s: Phys, s': Phys, loose: set<nat>, pinned: set<nat>, h: Ref, p: nat)
    requires Inv(s, loose, pinned) && p < |s.mem|
    requires s'.refs == PageDecref(s, p).refs && s'.free == PageDecref(s, p).free && Retargets(s, s', h)
    requires Target(s, h) == Some(p) && Target(s', h) == None
    ensures s.refs[p] > 0 && s'.refs == s.refs[p := s.refs[p] - 1]
    ensures InRange(s') && Exclusive(s') && Exact(s', pinned) && FreeExact(s', loose)
    ensures forall k :: 0 <= k < |s'.free| ==> s'.free[k] < |s.mem|
  {
    assert h in Holders(s, p);
    assert s.refs[p] > 0;
    LoseCount(s, s', pinned, h, p);
  }

  lemma LoseCount(s: Phys, s': Phys, pinned: set<nat>, h: Ref, p: nat)
    requires |s.refs| == |s.mem| && p < |s.mem| && Exact(s, pinned) && s.refs[p] > 0
    requires s'.refs == s.refs[p := s.refs[p] - 1] && Retargets(s, s', h)
    requires Target(s, h) == Some(p) && Target(s', h) == None
    ensures Exact(s', pinned)
  {
    forall q | 0 <= q < |s.mem| ensures s'.refs[q] == |Holders(s', q)| + (if q in pinned then 1 else 0) {
      OneReference(s, s', h, q);
    }
  }

  // ----- structure -----

  /** Directories whose words do not change keep their kernel half. */
  lemma SameTopLevel(s: Phys, s': Phys)
    requires KernelHalf(s) && s'.kdir == s.kdir && s'.dirs <= s.dirs
    requires forall d: nat, i: nat :: (d in s.dirs && i >= PDX_UTOP) || d == s.kdir ==> Word(s', d, i) == Word(s, d, i)
    ensures KernelHalf(s')
  {
  }

  /** The frame of a user page table is that and nothing else. */
  lemma UserTable(s: Phys, d: nat, i: nat)
    requires Shape(s) && InRange(s) && Exclusive(s) && d in s.dirs && i < PDX_UTOP && Present(Word(s, d, i))
    ensures var t := Word(s, d, i).frame;
      && t < |s.mem| && t !in s.dirs && t !in s.reserved
      && (forall h :: Target(s, h) == Some(t) ==> h == Pde(d, i))
  {
    var t := Word(s, d, i).frame;
    assert Target(s, Pde(d, i)) == Some(t);
    assert Target(s, Dir(t)) != Some(t);
    assert Target(s, Boot(t)) != Some(t);
  }

  /** Writing one entry of a user page table retargets one reference and leaves directories alone. */
  lemma EntryStore(s: Phys, d: nat, i: nat, j: nat, e: Entry)
    requires Structure(s) && d in s.dirs && i < PDX_UTOP && j < NPTENTRIES && Present(Word(s, d, i))
    ensures var t := Word(s, d, i).frame; var s' := Store(s, t, j, e);
      && Shape(s') && KernelHalf(s') && SameSpace(s, s')
      && Retargets(s, s', Pte(d, i, j)) && Target(s', Pte(d, i, j)) == Named(e)
      && (forall f: nat, k: nat :: Word(s', f, k) == if f == t && k == j then e else Word(s, f, k))
      && (forall f: nat, k: nat :: f in s.dirs || f == s.kdir ==> Word(s', f, k) == Word(s, f, k))
  {
    var t := Word(s, d, i).frame;
    var s' := Store(s, t, j, e);
    UserTable(s, d, i);
    forall h | h != Pte(d, i, j) ensures Target(s', h) == Target(s, h) {
      if h.Pte? && h.dir in s.dirs && h.i < PDX_UTOP && Present(Word(s, h.dir, h.i)) && Word(s, h.dir, h.i).frame == t {
        assert Target(s, Pde(h.dir, h.i)) == Some(t);
      }
    }
    SameTopLevel(s, s');
  }

  // ----- page_alloc and pgdir_walk -----

  /** Rewriting a frame that nothing refers to is invisible. */
  lemma UnreferencedFrame(s: Phys, f: nat, page: seq<Entry>)
    requires Shape(s) && f < |s.mem| && forall h :: Target(s, h) != Some(f)
    ensures var s' := s.(mem := s.mem[f := page]);
      && (forall h :: Target(s', h) == Target(s, h))
      && (forall g, i :: g != f ==> Word(s', g, i) == Word(s, g, i))
      && f !in s.dirs && f != s.kdir
  {
    var s' := s.(mem := s.mem[f := page]);
    assert Target(s, Boot(s.kdir)) == Some(s.kdir);
    assert forall d :: d in s.dirs ==> Target(s, Dir(d)) == Some(d);
    forall h ensures Target(s', h) == Target(s, h) {
      if h.Pte? && h.dir in s.dirs && h.i < PDX_UTOP && Present(Word(s, h.dir, h.i)) {
        assert Target(s, Pde(h.dir, h.i)) != Some(f);
      }
    }
  }

  /** page_alloc takes the first free page, which nothing refers to. */
  lemma AllocKeeps(s: Phys, loose: set<nat>, pinned: set<nat>, zero: bool)
    requires Inv(s, loose, pinned) && s.free != []
    ensures var r := PageAlloc(s, zero); var f := s.free[0];
      && Inv(r.s, loose + {f}, pinned)
      && f !in loose && f < |s.mem| && s.refs[f] == 0
      && (forall h :: Target(r.s, h) == Target(s, h) && Target(s, h) != Some(f))
      && (forall g, i :: g != f ==> Word(r.s, g, i) == Word(s, g, i))
      && f !in s.dirs && f != s.kdir
  {
    var s' := PageAlloc(s, zero).s;
    var f := s.free[0];
    assert f in s.free;
    Unreferenced(s, loose, pinned, f);
    UnreferencedFrame(s, f, if zero then ZeroPage() else s.mem[f]);
    assert s.mem[f := s.mem[f]] == s.mem;
    CountsAside(s.(mem := s'.mem), s');
    forall p | 0 <= p < |s.mem| ensures Holders(s', p) == Holders(s, p) {
      SameReferences(s, s', p);
    }
    SameTopLevel(s, s');
  }

  /** Entering an empty, unreferenced frame as a table gives one reference. */
  lemma NewTableTargets(s: Phys, s': Phys, d: nat, i: nat, t: nat)
    requires Structure(s) && d in s.dirs && i < PDX_UTOP && !Present(Word(s, d, i)) && t < |s.mem| && s.mem[t] == ZeroPage()
    requires forall h :: Target(s, h) != Some(t)
    requires s' == Store(s, d, i, PresentEntry(t, PTE_U | PTE_W)).(refs := s'.refs)
    ensures Retargets(s, s', Pde(d, i)) && Target(s', Pde(d, i)) == Some(t) && Target(s, Pde(d, i)) == None
    ensures Word(s', d, i) == PresentEntry(t, PTE_U | PTE_W) && KernelHalf(s')
  {
    assert Target(s, Dir(d)) == Some(d) && Target(s, Boot(s.kdir)) == Some(s.kdir);
    assert t != d;
    assert forall k: nat :: !Present(Word(s', t, k));
    assert forall f: nat, k: nat :: !(f == d && k == i) ==> Word(s', f, k) == Word(s, f, k);
    forall h | h != Pde(d, i) ensures Target(s', h) == Target(s, h) {
      if h.Pte? && h.dir in s.dirs && h.i < PDX_UTOP && Present(Word(s, h.dir, h.i)) {
        assert Target(s, Pde(h.dir, h.i)) != Some(d);
      }
    }
    SameTopLevel(s, s');
  }

  lemma NewTable(s: Phys, loose: set<nat>, pinned: set<nat>, d: nat, i: nat, t: nat)
    requires Inv(s, loose, pinned) && d in s.dirs && i < PDX_UTOP && t in loose
    requires !Present(Word(s, d, i)) && s.mem[t] == ZeroPage()
    ensures var s' := Store(IncRef(s, t), d, i, PresentEntry(t, PTE_U | PTE_W));
      && Inv(s', loose - {t}, pinned)
      && Retargets(s, s', Pde(d, i))
      && Word(s', d, i) == PresentEntry(t, PTE_U | PTE_W)
  {
    var s' := Store(IncRef(s, t), d, i, PresentEntry(t, PTE_U | PTE_W));
    assert t < |s.mem| && s.refs[t] == 0 && s'.refs == s.refs[t := 1];
    Unreferenced(s, loose, pinned, t);
    hide Target, Word;
    NewTableTargets(s, s', d, i, t);
    Gain(s, s', loose, pinned, Pde(d, i), t);
  }

  /** The walk that creates: on success at most one directory entry has been filled, with a fresh,
      empty, once-counted table; on failure the state is the old one. */
  lemma WalkKeeps(s: Phys, loose: set<nat>, pinned: set<nat>, d: nat, pn: nat)
    requires Inv(s, loose, pinned) && d in s.dirs && pn < USER_PAGES
    ensures var r := PgdirWalk(s, d, pn, true); var i := Pdx(pn);
      && Inv(r.s, loose, pinned) && SameSpace(s, r.s)
      && (r.frame.None? ==> r.s == s && s.free == [])
      && (r.frame.Some? ==> Present(Word(r.s, d, i)) && Word(r.s, d, i).frame == r.frame.value)
      && Retargets(s, r.s, Pde(d, i))
      && (Present(Word(s, d, i)) ==> r.s == s)
      && (forall p :: 0 <= p < |s.mem| && p !in s.free ==> p !in r.s.free && r.s.refs[p] == s.refs[p])
      && (r.frame.Some? && r.s != s ==> r.frame.value in s.free)
  {
    if !Present(Word(s, d, Pdx(pn))) && s.free != [] {
      var t := s.free[0];
      AllocKeeps(s, loose, pinned, true);
      NewTable(PageAlloc(s, true).s, loose + {t}, pinned, d, Pdx(pn), t);
      assert loose + {t} - {t} == loose;
    }
  }

  // ----- page_remove -----

  /** page_remove drops exactly one reference; the page is freed with its last one. */
  lemma RemoveKeeps(s: Phys, loose: set<nat>, pinned: set<nat>, d: nat, pn: nat)
    requires Inv(s, loose, pinned) && d in s.dirs && pn < USER_PAGES
    ensures var s' := PageRemove(s, d, pn); var h := Pte(d, Pdx(pn), Ptx(pn));
      && Inv(s', loose, pinned) && SameSpace(s, s')
      && Retargets(s, s', h) && Target(s', h) == None
      && (forall f: nat, k: nat :: f in s.dirs || f == s.kdir ==> Word(s', f, k) == Word(s, f, k))
  {
    var i, j := Pdx(pn), Ptx(pn);
    var h := Pte(d, i, j);
    assert PageLookup(s, d, pn) == Target(s, h);
    if PageLookup(s, d, pn).Some? {
      var p := PageLookup(s, d, pn).value;
      var s' := PageRemove(s, d, pn);
      EntryStore(s, d, i, j, ABSENT);
      CountsAside(Store(s, Word(s, d, i).frame, j, ABSENT), s');
      Lose(s, s', loose, pinned, h, p);
    }
  }

  lemma LookedUpCounted(s: Phys, loose: set<nat>, pinned: set<nat>, d: nat, pn: nat)
    requires Inv(s, loose, pinned) && d in s.dirs && pn < USER_PAGES && PageLookup(s, d, pn).Some?
    ensures var p := PageLookup(s, d, pn).value; p < |s.mem| && s.refs[p] > 0 && p !in s.free
  {
    var h := Pte(d, Pdx(pn), Ptx(pn));
    UserPage(pn);
    assert Target(s, h) == PageLookup(s, d, pn);
    assert h in Holders(s, PageLookup(s, d, pn).value);
  }

  // ----- page_insert -----

  ghost predicate DataOnly(s: Phys, p: nat) {
    forall h :: Target(s, h) == Some(p) ==> h.Pte?
  }

  /** A page that page_insert may be given: in memory, off the free list, and mapped as data if at all. */
  ghost predicate Insertable(s: Phys, pp: nat) {
    && |s.refs| == |s.mem|
    && pp < |s.mem| && pp !in s.free
    && DataOnly(s, pp)
  }

  /** The page's 16-bit count can go up. */
  predicate Room(s: Phys, pp: nat) {
    pp < |s.refs| && s.refs[pp] + 1 < REF_LIMIT
  }

  /** The arguments that page_insert can do right by: bits of `perm` above the flags do not touch the frame number,
      and the count has room or need not change. */
  predicate Fits(s: Phys, d: nat, pp: nat, pn: nat, perm: Perm) {
    Or(pp, perm.high) == pp && (Room(s, pp) || PageLookup(s, d, pn) == Some(pp))
  }

  /** Counting a page before its entry is written: right up to one count too many, exactly if the count has room. */
  lemma PinKeeps(s: Phys, loose: set<nat>, p: nat)
    requires Inv(s, loose, {}) && Insertable(s, p)
    ensures Inv(IncRef(s, p), loose - {p}, {p}) <==> Room(s, p)
    ensures forall h :: Target(IncRef(s, p), h) == Target(s, h)
    ensures forall f, k :: Word(IncRef(s, p), f, k) == Word(s, f, k)
  {
    var s' := IncRef(s, p);
    CountsAside(s, s');
    forall q | 0 <= q < |s.mem| ensures Holders(s', q) == Holders(s, q) {
      SameReferences(s, s', q);
    }
    SameTopLevel(s, s');
  }

  lemma UnpinKeeps(s: Phys, loose: set<nat>, p: nat, d: nat, i: nat, j: nat, perm: Flags)
    requires Inv(s, loose, {p}) && d in s.dirs && i < PDX_UTOP && j < NPTENTRIES && p < |s.mem|
    requires Present(Word(s, d, i)) && Target(s, Pte(d, i, j)) == None && DataOnly(s, p)
    ensures Inv(Store(s, Word(s, d, i).frame, j, PresentEntry(p, perm)), loose, {})
  {
    var s' := Store(s, Word(s, d, i).frame, j, PresentEntry(p, perm));
    EntryStore(s, d, i, j, PresentEntry(p, perm));
    forall q | 0 <= q < |s.mem| ensures s'.refs[q] == |Holders(s', q)| {
      OneReference(s, s', Pte(d, i, j), q);
    }
  }

  lemma StillDataOnly(s: Phys, s': Phys, p: nat)
    requires DataOnly(s, p)
    requires forall h: Ref :: !h.Pte? ==> Target(s', h) == Target(s, h) || Target(s', h) != Some(p)
    ensures DataOnly(s', p)
  {
  }

  /** What page_insert does to memory, with the table in place: one entry is stored. */
  lemma InsertStores(s: Phys, d: nat, pp: nat, pn: nat, perm: Perm)
    requires Present(Word(s, d, Pdx(pn)))
    ensures var r := PageInsert(s, d, pp, pn, perm); var t := Word(s, d, Pdx(pn)).frame;
      r.ok && r.s == Store(s, t, Ptx(pn), StoredEntry(pp, perm)).(refs := r.s.refs, free := r.s.free)
  {
    var t, j, e := Word(s, d, Pdx(pn)).frame, Ptx(pn), StoredEntry(pp, perm);
    var s1 := IncRef(s, pp);
    StoreTwice(s1, t, j, ABSENT, e);
  }

  lemma StoreTwice(s: Phys, f: nat, i: nat, e: Entry, e': Entry)
    ensures Store(Store(s, f, i, e), f, i, e') == Store(s, f, i, e')
  {
    if f < |s.mem| && i < |s.mem[f]| {
      var page := s.mem[f];
      assert page[i := e][i := e'] == page[i := e'];
      assert s.mem[f := page[i := e]][f := page[i := e']] == s.mem[f := page[i := e']];
    }
  }

  /** So it retargets one reference, whatever becomes of the counts. */
  lemma InsertRetargets(s: Phys, d: nat, pp: nat, pn: nat, perm: Perm)
    requires Structure(s) && d in s.dirs && pn < USER_PAGES && Present(Word(s, d, Pdx(pn)))
    ensures var r := PageInsert(s, d, pp, pn, perm); var h := Pte(d, Pdx(pn), Ptx(pn));
      && r.ok && SameSpace(s, r.s)
      && Word(r.s, Word(s, d, Pdx(pn)).frame, Ptx(pn)) == StoredEntry(pp, perm)
      && Retargets(s, r.s, h) && Target(r.s, h) == Some(Or(pp, perm.high))
      && (forall f: nat, k: nat :: f in s.dirs || f == s.kdir ==> Word(r.s, f, k) == Word(s, f, k))
  {
    var r := PageInsert(s, d, pp, pn, perm);
    UserPage(pn);
    InsertStores(s, d, pp, pn, perm);
    EntryStore(s, d, Pdx(pn), Ptx(pn), StoredEntry(pp, perm));
    CountsAside(Store(s, Word(s, d, Pdx(pn)).frame, Ptx(pn), StoredEntry(pp, perm)), r.s);
  }

  /** The counts, with the table in place: up for the new page, down for the old one. */
  lemma InsertCounts(s: Phys, d: nat, pp: nat, pn: nat, perm: Perm)
    requires Shape(s) && Present(Word(s, d, Pdx(pn))) && pp < |s.refs|
    ensures var r := PageInsert(s, d, pp, pn, perm).s; var was := PageLookup(s, d, pn); var s1 := IncRef(s, pp);
      && r.refs == (if was.None? then s1 else PageDecref(s1, was.value)).refs
      && r.free == (if was.None? then s1 else PageDecref(s1, was.value)).free
  {
    CountsAside(s, IncRef(s, pp));
  }

  /** With room in the count and only flags in `perm`, page_insert keeps everything exact. */
  lemma InsertInTable(s: Phys, loose: set<nat>, d: nat, pp: nat, pn: nat, flags: Flags)
    requires Inv(s, loose, {}) && Insertable(s, pp) && Room(s, pp) && d in s.dirs && pn < USER_PAGES
    requires Present(Word(s, d, Pdx(pn)))
    ensures Inv(PageInsert(s, d, pp, pn, Plain(flags)).s, loose - {pp}, {})
  {
    var i, j := Pdx(pn), Ptx(pn);
    var t := Word(s, d, i).frame;
    PinKeeps(s, loose, pp);
    var s1 := IncRef(s, pp);
    RemoveKeeps(s1, loose - {pp}, {pp}, d, pn);
    var s2 := PageRemove(s1, d, pn);
    assert !Present(Word(s1, t, j)) ==> s2 == s1;
    StillDataOnly(s, s2, pp);
    UserPage(pn);
    UnpinKeeps(s2, loose - {pp}, pp, d, i, j, flags);
    PlainStores(pp, flags);
  }

  lemma UpAndDown(s: Phys, p: nat)
    requires p < |s.refs| && 0 < s.refs[p] < REF_LIMIT
    ensures PageDecref(IncRef(s, p), p) == s
  {
    assert s.refs[p := s.refs[p]] == s.refs;
  }

  /** Mapping a page where it is mapped already needs no room: its count goes up and down again. */
  lemma ReinsertInTable(s: Phys, loose: set<nat>, d: nat, pp: nat, pn: nat, flags: Flags)
    requires Inv(s, loose, {}) && d in s.dirs && pn < USER_PAGES && PageLookup(s, d, pn) == Some(pp)
    ensures Inv(PageInsert(s, d, pp, pn, Plain(flags)).s, loose - {pp}, {})
  {
    var r := PageInsert(s, d, pp, pn, Plain(flags)).s;
    LookedUpCounted(s, loose, {}, d, pn);
    InsertRetargets(s, d, pp, pn, Plain(flags));
    InsertCounts(s, d, pp, pn, Plain(flags));
    UpAndDown(s, pp);
    assert loose - {pp} == loose;
    PlainStores(pp, flags);
    UserPage(pn);
    assert Target(s, Pte(d, Pdx(pn), Ptx(pn))) == Some(pp);
    InsertShape(s, d, pp, pn, Plain(flags));
    hide PageInsert, PageLookup, Target;
    SameInv(s, r, loose);
  }

  lemma InsertShape(s: Phys, d: nat, pp: nat, pn: nat, perm: Perm)
    requires Structure(s) && d in s.dirs && pn < USER_PAGES && Present(Word(s, d, Pdx(pn)))
    ensures var r := PageInsert(s, d, pp, pn, perm).s;
      |r.refs| == |s.refs| && forall f :: 0 <= f < |r.mem| ==> |r.mem[f]| == NPTENTRIES
  {
    InsertStores(s, d, pp, pn, perm);
  }

  lemma SameInv(s: Phys, r: Phys, loose: set<nat>)
    requires Inv(s, loose, {}) && SameSpace(s, r) && r.refs == s.refs && r.free == s.free
    requires forall f :: 0 <= f < |r.mem| ==> |r.mem[f]| == NPTENTRIES
    requires forall h :: Target(r, h) == Target(s, h)
    requires forall f: nat, k: nat :: f in s.dirs || f == s.kdir ==> Word(r, f, k) == Word(s, f, k)
    ensures Inv(r, loose, {})
  {
    forall q | 0 <= q < |s.mem| ensures Holders(r, q) == Holders(s, q) {
      SameReferences(s, r, q);
    }
    SameTopLevel(s, r);
  }

  /** A stored word that names another frame than the page whose count went up leaves that count wrong. */
  lemma Misdirected(s: Phys, loose: set<nat>, d: nat, pp: nat, pn: nat, perm: Perm)
    requires Inv(s, loose, {}) && d in s.dirs && pn < USER_PAGES && Present(Word(s, d, Pdx(pn))) && pp < |s.mem|
    requires Or(pp, perm.high) != pp
    requires Inv(PageInsert(s, d, pp, pn, Plain(perm.flags)).s, loose - {pp}, {})
    ensures var r := PageInsert(s, d, pp, pn, perm).s; |r.refs| == |r.mem| && !Exact(r, {})
  {
    var good, bad := PageInsert(s, d, pp, pn, Plain(perm.flags)).s, PageInsert(s, d, pp, pn, perm).s;
    var h := Pte(d, Pdx(pn), Ptx(pn));
    InsertRetargets(s, d, pp, pn, Plain(perm.flags));
    InsertRetargets(s, d, pp, pn, perm);
    InsertCounts(s, d, pp, pn, Plain(perm.flags));
    InsertCounts(s, d, pp, pn, perm);
    PlainStores(pp, perm.flags);
    OneReference(good, bad, h, pp);
  }

  /** A full count wraps to zero while its references stay. */
  lemma Overflowed(s: Phys, loose: set<nat>, d: nat, pp: nat, pn: nat, perm: Perm)
    requires Inv(s, loose, {}) && d in s.dirs && pn < USER_PAGES && Present(Word(s, d, Pdx(pn))) && pp < |s.mem|
    requires !Room(s, pp) && PageLookup(s, d, pn) != Some(pp)
    ensures var r := PageInsert(s, d, pp, pn, perm).s; |r.refs| == |r.mem| && !Exact(r, {})
  {
    var r := PageInsert(s, d, pp, pn, perm).s;
    var h := Pte(d, Pdx(pn), Ptx(pn));
    InsertRetargets(s, d, pp, pn, perm);
    InsertCounts(s, d, pp, pn, perm);
    assert Target(s, h) == PageLookup(s, d, pn);
    assert r.refs[pp] == 0 && |Holders(s, pp)| > 0;
    hide Inv, PageInsert, Target, PageLookup;
    var k :| k in Holders(s, pp);
    assert k in Holders(r, pp);
  }

  /** After a successful walk the table is there, and page_insert goes on as if it always had been. */
  lemma InsertAfterWalk(s: Phys, d: nat, pp: nat, pn: nat, perm: Perm)
    ensures var w := PgdirWalk(s, d, pn, true);
      w.frame.Some? && Present(Word(w.s, d, Pdx(pn))) && Word(w.s, d, Pdx(pn)).frame == w.frame.value
      ==> PageInsert(s, d, pp, pn, perm) == PageInsert(w.s, d, pp, pn, perm)
  {
  }

  lemma InTableIff(s: Phys, loose: set<nat>, d: nat, pp: nat, pn: nat, perm: Perm)
    requires Inv(s, loose, {}) && Insertable(s, pp) && d in s.dirs && pn < USER_PAGES && Present(Word(s, d, Pdx(pn)))
    ensures Inv(PageInsert(s, d, pp, pn, perm).s, loose - {pp}, {}) <==> Fits(s, d, pp, pn, perm)
  {
    if Room(s, pp) || PageLookup(s, d, pn) == Some(pp) {
      if Room(s, pp) {
        InsertInTable(s, loose, d, pp, pn, perm.flags);
      } else {
        ReinsertInTable(s, loose, d, pp, pn, perm.flags);
      }
      if Or(pp, perm.high) == pp {
        assert StoredEntry(pp, perm) == StoredEntry(pp, Plain(perm.flags)) by { PlainStores(pp, perm.flags); }
        assert PageInsert(s, d, pp, pn, perm) == PageInsert(s, d, pp, pn, Plain(perm.flags));
      } else {
        Misdirected(s, loose, d, pp, pn, perm);
      }
    } else {
      Overflowed(s, loose, d, pp, pn, perm);
    }
  }

  /** The walk changes neither what the page fits nor whether it may be inserted. */
  lemma WalkFits(s: Phys, loose: set<nat>, d: nat, pp: nat, pn: nat, perm: Perm)
    requires Inv(s, loose, {}) && Insertable(s, pp) && d in s.dirs && pn < USER_PAGES
    ensures var w := PgdirWalk(s, d, pn, true); w.frame.Some? ==>
      Insertable(w.s, pp) && (Fits(w.s, d, pp, pn, perm) <==> Fits(s, d, pp, pn, perm))
  {
    var w := PgdirWalk(s, d, pn, true);
    WalkKeeps(s, loose, {}, d, pn);
    if w.frame.Some? && w.s != s {
      var t := s.free[0];
      assert Target(w.s, Pde(d, Pdx(pn))) == Some(t) && t != pp;
      StillDataOnly(s, w.s, pp);
      FreshTableEmpty(s, loose, d, pn);
    }
  }

  lemma FreshTableEmpty(s: Phys, loose: set<nat>, d: nat, pn: nat)
    requires Inv(s, loose, {}) && d in s.dirs && pn < USER_PAGES && !Present(Word(s, d, Pdx(pn))) && s.free != []
    ensures PageLookup(PgdirWalk(s, d, pn, true).s, d, pn) == None
  {
    AllocKeeps(s, loose, {}, true);
    UserPage(pn);
  }

  /** page_insert: on failure nothing changed; on success the only references that moved are the entry for `pn` and,
      if it was missing, its table. The counts are exact again exactly if the arguments fit. */
  lemma InsertKeeps(s: Phys, loose: set<nat>, d: nat, pp: nat, pn: nat, perm: Perm)
    requires Inv(s, loose, {}) && Insertable(s, pp) && d in s.dirs && pn < USER_PAGES
    ensures var r := PageInsert(s, d, pp, pn, perm); var i := Pdx(pn); var j := Ptx(pn);
      && (!r.ok ==> r.s == s && s.free == [] && !Present(Word(s, d, i)))
      && (r.ok ==>
            && SameSpace(s, r.s)
            && Present(Word(r.s, d, i))
            && Word(r.s, Word(r.s, d, i).frame, j) == StoredEntry(pp, perm)
            && (forall h :: h != Pte(d, i, j) && h != Pde(d, i) ==> Target(r.s, h) == Target(s, h))
            && (Present(Word(s, d, i)) ==> Target(r.s, Pde(d, i)) == Target(s, Pde(d, i)))
            && (Inv(r.s, loose - {pp}, {}) <==> Fits(s, d, pp, pn, perm)))
  {
    var w := PgdirWalk(s, d, pn, true);
    WalkKeeps(s, loose, {}, d, pn);
    if w.frame.Some? {
      WalkFits(s, loose, d, pp, pn, perm);
      InsertAfterWalk(s, d, pp, pn, perm);
      InsertRetargets(w.s, d, pp, pn, perm);
      InTableIff(w.s, loose, d, pp, pn, perm);
    }
  }
}
