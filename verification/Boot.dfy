/** page_init and boot_map_region: from the zeroed page array to the state in which environments start. */
module Boot {
  import opened Mmu
  import opened Options
  import opened PageTables
  import opened RefCounts
  import opened AddressSpaces
  import opened Lifetime

  const IO_HOLE_PAGE: nat := 0xA0000 / PGSIZE
  const MPENTRY_PAGE: nat := 0x7000 / PGSIZE

  /** Pages page_init marks as in use; `kernelEnd` is the first page after what boot_alloc handed out. */
  predicate Withheld(p: nat, kernelEnd: nat) {
    p == 0 || p == MPENTRY_PAGE || IO_HOLE_PAGE <= p < kernelEnd
  }

  function InitialRef(p: nat, kernelEnd: nat): nat {
    if Withheld(p, kernelEnd) then 1 else 0
  }

  /** The free list once page_init has passed pages 0..n: each free page is pushed in front, so the highest comes first. In
      use are page 0, the page at 0x7000, and those from 0xA0000 to the end of the kernel's memory. */
  function InitialFree(n: nat, kernelEnd: nat): (q: seq<nat>)
    ensures forall p: nat :: p in q <==> p < n && p != 0 && p != 7 && !(160 <= p < kernelEnd)
    ensures forall i, j :: 0 <= i < j < |q| ==> q[i] > q[j]
    ensures NoDuplicates(q)
  {
    if n == 0 then []
    else if Withheld(n - 1, kernelEnd) then InitialFree(n - 1, kernelEnd)
    else
      var q := InitialFree(n - 1, kernelEnd);
      assert forall k :: 0 <= k < |q| ==> q[k] in q;
      [n - 1] + q
  }

  ghost function WithheldPages(n: nat, kernelEnd: nat): set<nat> {
    set p: nat | p < n && Withheld(p, kernelEnd)
  }

  /** kern_pgdir as mem_init leaves it before page_init: zeroed, then inserted into itself. */
  function FirstDirectory(kdir: nat): (page: seq<Entry>)
    ensures |page| == NPDENTRIES
    ensures forall i :: 0 <= i < NPDENTRIES ==> page[i] == if i == PDX_UVPT then PresentEntry(kdir, PTE_U) else ABSENT
  {
    ZeroPage()[PDX_UVPT := PresentEntry(kdir, PTE_U)]
  }

  /** The state after page_init: `mem` is untouched and kern_pgdir holds only its own UVPT slot. */
  ghost predicate AfterPageInit(s: Phys, kernelEnd: nat) {
    && |s.refs| == |s.mem|
    && (forall p :: 0 <= p < |s.refs| ==> s.refs[p] == InitialRef(p, kernelEnd))
    && s.free == InitialFree(|s.refs|, kernelEnd)
    && s.reserved == WithheldPages(|s.refs|, kernelEnd)
    && s.dirs == {} && s.kdir in s.reserved
    && (forall f :: 0 <= f < |s.mem| ==> |s.mem[f]| == NPTENTRIES)
    && (forall i :: 0 <= i < NPDENTRIES ==> Word(s, s.kdir, i) == if i == PDX_UVPT then PresentEntry(s.kdir, PTE_U) else ABSENT)
  }

  /** page_init establishes the memory invariant. */
  lemma PageInitSound(s: Phys, kernelEnd: nat)
    requires AfterPageInit(s, kernelEnd)
    ensures Sound(s)
  {
    assert forall k :: 0 <= k < |s.free| ==> s.free[k] in s.free;
    forall h ensures Target(s, h) == if h.Boot? && h.page in s.reserved then Some(h.page) else None {
      if h.Kern? && h.i < NPDENTRIES && h.i != PDX_UVPT {
        assert Word(s, s.kdir, h.i) == ABSENT;
      }
    }
    forall p | 0 <= p < |s.mem| ensures s.refs[p] == |Holders(s, p)| {
      assert Holders(s, p) == if p in s.reserved then {Boot(p)} else {};
    }
  }

  // ----- boot_map_region -----

  /** One turn of boot_map_region: no count changes, and nothing is removed first. */
  function BootMapPage(s: Phys, pn: nat, frame: nat, perm: Flags): Option<Phys> {
    var w := PgdirWalk(s, s.kdir, pn, true);
    if w.frame.None? then None else Some(Store(w.s, w.frame.value, Ptx(pn), PresentEntry(frame, perm)))
  }

  /** boot_map_region over `n` pages; None where it panics for lack of memory. */
  function BootMap(s: Phys, pn: nat, frame: nat, n: nat, perm: Flags): Option<Phys>
    decreases n
  {
    if n == 0 then Some(s)
    else
      var r := BootMapPage(s, pn, frame, perm);
      if r.None? then None else BootMap(r.value, pn + 1, frame + 1, n - 1, perm)
  }

  predicate KernelPage(pn: nat) {
    USER_PAGES <= pn < ALL_PAGES && Pdx(pn) != PDX_UVPT
  }

  lemma NewKernelTable(s: Phys, loose: set<nat>, i: nat, t: nat)
    requires Inv(s, loose, {}) && s.dirs == {} && PDX_UTOP <= i < NPDENTRIES && i != PDX_UVPT
    requires t in loose && !Present(Word(s, s.kdir, i)) && s.mem[t] == ZeroPage()
    ensures var s' := Store(IncRef(s, t), s.kdir, i, PresentEntry(t, PTE_U | PTE_W));
      && Inv(s', loose - {t}, {})
      && Word(s', s.kdir, i) == PresentEntry(t, PTE_U | PTE_W)
  {
    var s' := Store(IncRef(s, t), s.kdir, i, PresentEntry(t, PTE_U | PTE_W));
    Unreferenced(s, loose, {}, t);
    assert Target(s, Boot(s.kdir)) == Some(s.kdir);
    assert t != s.kdir && s.kdir < |s.mem|;
    assert forall f: nat, k: nat :: !(f == s.kdir && k == i) ==> Word(s', f, k) == Word(s, f, k);
    Gain(s, s', loose, {}, Kern(i), t);
  }

  lemma KernelWalk(s: Phys, pn: nat)
    requires Sound(s) && s.dirs == {} && KernelPage(pn)
    ensures var r := PgdirWalk(s, s.kdir, pn, true); var i := Pdx(pn);
      && Sound(r.s) && SameSpace(s, r.s)
      && (r.frame.None? ==> r.s == s && s.free == [])
      && (r.frame.Some? ==> Present(Word(r.s, s.kdir, i)) && Word(r.s, s.kdir, i).frame == r.frame.value)
      && (forall k: nat :: k != i ==> Word(r.s, s.kdir, k) == Word(s, s.kdir, k))
      && (Present(Word(s, s.kdir, i)) ==> r.s == s)
      && (r.frame.Some? && r.s != s ==>
            && (forall h :: Target(s, h) != r.frame)
            && (forall k: nat :: !Present(Word(r.s, r.frame.value, k)))
            && (forall f: nat, k: nat :: f != r.frame.value && f != s.kdir ==> Word(r.s, f, k) == Word(s, f, k)))
  {
    if !Present(Word(s, s.kdir, Pdx(pn))) && s.free != [] {
      var t := s.free[0];
      AllocKeeps(s, {}, {}, true);
      assert {} + {t} == {t} && {t} - {t} == {};
      NewKernelTable(PageAlloc(s, true).s, {t}, Pdx(pn), t);
    }
  }

  /** Storing into a kernel page table touches no reference. */
  lemma KernelStore(s: Phys, pn: nat, e: Entry)
    requires Sound(s) && s.dirs == {} && KernelPage(pn) && Present(Word(s, s.kdir, Pdx(pn)))
    ensures var t := Word(s, s.kdir, Pdx(pn)).frame; var s' := Store(s, t, Ptx(pn), e);
      && Sound(s') && SameSpace(s, s') && t < |s.mem|
      && (forall k: nat :: Word(s', s.kdir, k) == Word(s, s.kdir, k))
      && (forall pn': nat :: pn' < ALL_PAGES && pn' != pn ==> Translate(s', s.kdir, pn') == Translate(s, s.kdir, pn'))
      && Translate(s', s.kdir, pn) == if Present(e) then Some(Xlat(Word(s, s.kdir, Pdx(pn)).flags, e)) else None
  {
    var i := Pdx(pn);
    var t := Word(s, s.kdir, i).frame;
    var s' := Store(s, t, Ptx(pn), e);
    assert Target(s, Kern(i)) == Some(t) && Target(s, Boot(s.kdir)) == Some(s.kdir);
    assert t != s.kdir;
    assert forall h :: Target(s', h) == Target(s, h);
    forall p | 0 <= p < |s.mem| ensures Holders(s', p) == Holders(s, p) {
      SameReferences(s, s', p);
    }
    SameTopLevel(s, s');
    PageSplit(pn, i, Ptx(pn));
    forall pn': nat | pn' < ALL_PAGES && pn' != pn ensures Translate(s', s.kdir, pn') == Translate(s, s.kdir, pn')
    {
      PageSplit(pn', i, Ptx(pn));
      if Present(Word(s, s.kdir, Pdx(pn'))) {
        TableOf(s, s.kdir, Pdx(pn'));
      }
    }
  }

  /** Creating a kernel table adds no translation outside the UVPT window. */
  lemma KernelWalkView(s: Phys, pn: nat, pn': nat)
    requires Sound(s) && s.dirs == {} && KernelPage(pn) && pn' < ALL_PAGES
    ensures var s' := PgdirWalk(s, s.kdir, pn, true).s;
      Translate(s', s.kdir, pn') == Translate(s, s.kdir, pn') || (Translate(s, s.kdir, pn') == None && pn' == WindowPage(pn))
  {
    var s' := PgdirWalk(s, s.kdir, pn, true).s;
    KernelWalk(s, pn);
    assert Target(s, Boot(s.kdir)) == Some(s.kdir);
    if s' != s {
      if Present(Word(s, s.kdir, Pdx(pn'))) {
        TableOf(s, s.kdir, Pdx(pn'));
      }
      PageSplit(pn', PDX_UVPT, Pdx(pn));
    }
  }

  /** kern_pgdir maps page `p` to the frame `shift` pages away, with `perm`. */
  predicate Maps(s: Phys, p: nat, shift: int, perm: Flags) {
    && p + shift >= 0
    && Translate(s, s.kdir, p).Some?
    && Translate(s, s.kdir, p).value.entry == PresentEntry(p + shift, perm)
  }

  /** Outside the region and the UVPT window kern_pgdir translates as before. */
  ghost predicate SameOutside(s: Phys, s': Phys, pn: nat, n: nat) {
    forall p: nat :: p < ALL_PAGES && !(pn <= p < pn + n) && Pdx(p) != PDX_UVPT
      ==> Translate(s', s.kdir, p) == Translate(s, s.kdir, p)
  }

  /** boot_map_region installs the whole region, frame by frame, and nothing outside it (bar the tables'
      own pages in the UVPT window); counts and free list stay exact. */
  lemma {:induction false} BootMapMaps(s: Phys, pn: nat, frame: nat, n: nat, perm: Flags, shift: int)
    requires Sound(s) && s.dirs == {} && pn + n <= ALL_PAGES && frame == pn + shift
    requires forall k :: pn <= k < pn + n ==> KernelPage(k)
    ensures var r := BootMap(s, pn, frame, n, perm);
      r.Some? ==>
        && Sound(r.value) && SameSpace(s, r.value)
        && (forall p: nat :: pn <= p < pn + n ==> Maps(r.value, p, shift, perm))
        && SameOutside(s, r.value, pn, n)
    decreases n
  {
    hide BootMap, BootMapPage, Inv, Translate, Shape;
    BootMapUnfolds(s, pn, frame, n, perm);
    if n > 0 {
      BootMapPageMaps(s, pn, frame, perm);
      var r := BootMapPage(s, pn, frame, perm);
      if r.Some? {
        BootMapMaps(r.value, pn + 1, frame + 1, n - 1, perm, shift);
        assert KernelPage(pn);
        var r' := BootMap(r.value, pn + 1, frame + 1, n - 1, perm);
        assert r'.Some? ==> Translate(r'.value, s.kdir, pn) == Translate(r.value, s.kdir, pn);
      }
    }
  }

  lemma BootMapUnfolds(s: Phys, pn: nat, frame: nat, n: nat, perm: Flags)
    ensures BootMap(s, pn, frame, n, perm) ==
      if n == 0 then Some(s)
      else
        var r := BootMapPage(s, pn, frame, perm);
        if r.None? then None else BootMap(r.value, pn + 1, frame + 1, n - 1, perm)
  {
  }

  lemma BootMapPageMaps(s: Phys, pn: nat, frame: nat, perm: Flags)
    requires Sound(s) && s.dirs == {} && KernelPage(pn)
    ensures var r := BootMapPage(s, pn, frame, perm);
      r.Some? ==>
        && Sound(r.value) && SameSpace(s, r.value)
        && Maps(r.value, pn, frame - pn, perm)
        && SameOutside(s, r.value, pn, 1)
  {
    var w := PgdirWalk(s, s.kdir, pn, true);
    KernelWalk(s, pn);
    if w.frame.Some? {
      KernelStore(w.s, pn, PresentEntry(frame, perm));
      forall p: nat | p < ALL_PAGES && p != pn && Pdx(p) != PDX_UVPT
        ensures Translate(w.s, s.kdir, p) == Translate(s, s.kdir, p)
      {
        KernelWalkView(s, pn, p);
        PageSplit(WindowPage(pn), PDX_UVPT, Pdx(pn));
      }
    }
  }

  /** The directory slots of pages [pn, pn + n) that have no table yet. */
  function Missing(s: Phys, pn: nat, n: nat): (slots: set<nat>)
    ensures forall i: nat :: i in slots <==> !Present(Word(s, s.kdir, i)) && exists p: nat :: pn <= p < pn + n && Pdx(p) == i
  {
    set p: nat | pn <= p < pn + n && !Present(Word(s, s.kdir, Pdx(p))) :: Pdx(p)
  }

  lemma BootMapPageTakes(s: Phys, pn: nat, frame: nat, perm: Flags)
    requires Sound(s) && s.dirs == {} && KernelPage(pn)
    ensures var r := BootMapPage(s, pn, frame, perm); var had := Present(Word(s, s.kdir, Pdx(pn)));
      && (r.None? <==> !had && s.free == [])
      && (r.Some? ==>
            && r.value.kdir == s.kdir && |r.value.free| == |s.free| - (if had then 0 else 1)
            && forall k: nat :: Present(Word(r.value, s.kdir, k)) <==> Present(Word(s, s.kdir, k)) || k == Pdx(pn))
  {
    var w := PgdirWalk(s, s.kdir, pn, true);
    KernelWalk(s, pn);
    if w.frame.Some? {
      KernelStore(w.s, pn, PresentEntry(frame, perm));
      assert w.s.free == if Present(Word(s, s.kdir, Pdx(pn))) then s.free else s.free[1..];
      hide Inv, PgdirWalk, Present;
    }
  }

  lemma MissingNext(s: Phys, s': Phys, pn: nat, n: nat)
    requires n > 0 && s'.kdir == s.kdir
    requires forall k: nat :: Present(Word(s', s.kdir, k)) <==> Present(Word(s, s.kdir, k)) || k == Pdx(pn)
    ensures Pdx(pn) !in Missing(s', pn + 1, n - 1)
    ensures Missing(s, pn, n) == Missing(s', pn + 1, n - 1) + if Present(Word(s, s.kdir, Pdx(pn))) then {} else {Pdx(pn)}
  {
    var rest := Missing(s', pn + 1, n - 1) + if Present(Word(s, s.kdir, Pdx(pn))) then {} else {Pdx(pn)};
    hide Present, Word;
    forall i: nat ensures i in Missing(s, pn, n) <==> i in rest {
      if i in Missing(s, pn, n) && i != Pdx(pn) {
        var p: nat :| pn <= p < pn + n && Pdx(p) == i;
        assert pn + 1 <= p < pn + 1 + (n - 1);
      }
      if i in Missing(s', pn + 1, n - 1) {
        var p: nat :| pn + 1 <= p < pn + 1 + (n - 1) && Pdx(p) == i;
        assert pn <= p < pn + n;
      }
    }
  }

  lemma MissingFirst(s: Phys, pn: nat, n: nat)
    ensures Missing(s, pn, 0) == {}
    ensures n > 0 && !Present(Word(s, s.kdir, Pdx(pn))) ==> |Missing(s, pn, n)| > 0
  {
    if n > 0 && !Present(Word(s, s.kdir, Pdx(pn))) {
      assert Pdx(pn) in Missing(s, pn, n);
    }
  }

  lemma NoNewDirectories(s: Phys, s': Phys)
    requires SameSpace(s, s')
    ensures s'.dirs == s.dirs
  {
  }

  /** boot_map_region panics exactly if the free list is shorter than the tables to be made; otherwise it takes just these. */
  lemma {:induction false} BootMapTakes(s: Phys, pn: nat, frame: nat, n: nat, perm: Flags)
    requires Sound(s) && s.dirs == {} && pn + n <= ALL_PAGES
    requires forall k :: pn <= k < pn + n ==> KernelPage(k)
    ensures var r := BootMap(s, pn, frame, n, perm);
      && (r.Some? <==> |s.free| >= |Missing(s, pn, n)|)
      && (r.Some? ==> |r.value.free| == |s.free| - |Missing(s, pn, n)|)
    decreases n
  {
    hide *;
    BootMapUnfolds(s, pn, frame, n, perm);
    MissingFirst(s, pn, n);
    if n > 0 {
      assert KernelPage(pn);
      BootMapPageTakes(s, pn, frame, perm);
      BootMapPageMaps(s, pn, frame, perm);
      var r := BootMapPage(s, pn, frame, perm);
      if r.Some? {
        NoNewDirectories(s, r.value);
        BootMapTakes(r.value, pn + 1, frame + 1, n - 1, perm);
        MissingNext(s, r.value, pn, n);
      }
    }
  }
}
