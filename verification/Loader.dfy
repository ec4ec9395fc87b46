/** region_alloc and load_icode: an ELF image becomes the memory of a new environment, byte by byte through its page
    tables. */
module Loader {
  import opened Mmu
  import opened Options
  import opened CowMemory
  import opened FrameBytes
  import PT = PageTables
  import RC = RefCounts
  import LT = Lifetime
  import SC = Syscalls
  import DP = DataPages
  import PM = PageMaps

  /** A program header; `load` stands for ELF_PROG_LOAD. */
  datatype Segment = Segment(load: bool, va: nat, memsz: nat, offset: nat, filesz: nat)

  /** The pages region_alloc(va, len) maps: from `va` rounded down to `va + len` rounded up. */
  function FirstPage(va: nat): nat { va / 4096 }
  function EndPage(va: nat, len: nat): nat { (va + len + 4095) / 4096 }

  function Pages(va: nat, len: nat): nat { EndPage(va, len) - FirstPage(va) }

  predicate Covers(va: nat, len: nat, pn: nat) {
    FirstPage(va) <= pn < EndPage(va, len)
  }

  predicate Mapped(u: Users, e: nat, a: nat) {
    Slot(e, a / 4096) in u.pt
  }

  /** The byte that environment `e`, which maps the pages of `u`, sees at address `a`. */
  function ByteAt(s: PT.Phys, u: Users, e: nat, a: nat): nat {
    if Mapped(u, e, a) then FrameAt(s, u.pt[Slot(e, a / 4096)].frame)[a % 4096] else 0
  }

  /** A store through directory `d`. */
  function StoreByte(s: PT.Phys, d: nat, a: nat, v: Byte): PT.Phys {
    var f := PT.PageLookup(s, d, a / 4096);
    if f.Some? then Poked(s, f.value, a % 4096, v) else s
  }

  /** No frame of `e` is mapped anywhere else. */
  ghost predicate Own(u: Users, e: nat) {
    forall k, k' {:trigger k in u.pt, k' in u.pt} ::
      k in u.pt && k' in u.pt && k.env == e && u.pt[k].frame == u.pt[k'].frame ==> k == k'
  }

  /** Memory, its map, and who is who. */
  ghost predicate Stands(s: PT.Phys, dir: map<nat, nat>, u: Users, e: nat) {
    PT.Sound(s) && PM.Shows(s, dir, u) && e in dir && Own(u, e)
  }

  /** Every page of every other environment is as before, bytes and all. */
  ghost predicate OthersSame(s: PT.Phys, u: Users, s': PT.Phys, u': Users, e: nat) {
    forall k: Slot :: k.env != e ==>
      (k in u'.pt <==> k in u.pt) && (k in u.pt ==> u'.pt[k] == u.pt[k] && FrameAt(s', u.pt[k].frame) == FrameAt(s, u.pt[k].frame))
  }

  /** The same references and free pages, and the same bytes of `e` outside [lo, hi). */
  ghost predicate SameOutside(s: PT.Phys, s': PT.Phys, u: Users, e: nat, lo: nat, hi: nat) {
    && s'.free == s.free && s'.dirs == s.dirs && (forall h :: PT.Target(s', h) == PT.Target(s, h))
    && OthersSame(s, u, s', u, e)
    && forall b: nat :: b < lo || b >= hi ==> ByteAt(s', u, e, b) == ByteAt(s, u, e, b)
  }

  lemma OthersSteps(s0: PT.Phys, u0: Users, s: PT.Phys, u: Users, s': PT.Phys, u': Users, e: nat)
    requires OthersSame(s0, u0, s, u, e) && OthersSame(s, u, s', u', e)
    ensures OthersSame(s0, u0, s', u', e)
  {
    hide FrameAt;
  }

  /** One byte stored at `a`. */
  lemma StoreByteView(s: PT.Phys, dir: map<nat, nat>, u: Users, e: nat, a: nat, v: Byte)
    requires Stands(s, dir, u, e) && Mapped(u, e, a)
    ensures var s' := StoreByte(s, dir[e], a, v);
      Stands(s', dir, u, e) && SameOutside(s, s', u, e, a, a + 1) && ByteAt(s', u, e, a) == v
  {
    var k := Slot(e, a / 4096);
    LookupMapped(s, dir, u, k);
    PM.StoreShows(s, dir, u, k, a % 4096, v);
    PokedBytes(s, u.pt[k].frame, a % 4096, v);
    var s' := StoreByte(s, dir[e], a, v);
    hide PT.Inv, PM.Shows, FrameAt, Poked, PT.PageLookup, PT.Target, ByteAt, OthersSame, Own;
    PokedView(s, s', u, e, a, v);
  }

  lemma PokedView(s: PT.Phys, s': PT.Phys, u: Users, e: nat, a: nat, v: Byte)
    requires Own(u, e) && Mapped(u, e, a)
    requires var f := u.pt[Slot(e, a / 4096)].frame;
      FrameAt(s', f) == Poke(FrameAt(s, f), a % 4096, v) && forall g: nat :: g != f ==> FrameAt(s', g) == FrameAt(s, g)
    ensures OthersSame(s, u, s', u, e) && ByteAt(s', u, e, a) == v
    ensures forall b: nat :: b != a ==> ByteAt(s', u, e, b) == ByteAt(s, u, e, b)
  {
    var k := Slot(e, a / 4096);
    hide FrameAt;
    forall b: nat | b != a ensures ByteAt(s', u, e, b) == ByteAt(s, u, e, b) {
      if Mapped(u, e, b) && u.pt[k].frame == u.pt[Slot(e, b / 4096)].frame {
        assert k == Slot(e, b / 4096);
        assert a % 4096 != b % 4096;
      }
    }
  }

  lemma LookupMapped(s: PT.Phys, dir: map<nat, nat>, u: Users, k: Slot)
    requires PM.Shows(s, dir, u) && k in u.pt
    ensures k.env in dir && PT.PageLookup(s, dir[k.env], k.pn) == Some(u.pt[k].frame)
  {
    PM.SeenAt(s, dir, u, k);
    PM.LookupSees(s, dir[k.env], k.pn);
    hide PM.Seen, PT.PageLookup;
  }

  /** Two stretches of stores, one after the other. */
  lemma SameFurther(s0: PT.Phys, s: PT.Phys, s': PT.Phys, u: Users, e: nat, lo: nat, mid: nat, hi: nat)
    requires SameOutside(s0, s, u, e, lo, mid) && SameOutside(s, s', u, e, mid, hi) && lo <= mid <= hi
    ensures SameOutside(s0, s', u, e, lo, hi)
    ensures forall b: nat :: b < mid ==> ByteAt(s', u, e, b) == ByteAt(s, u, e, b)
  {
    hide ByteAt, PT.Target, OthersSame;
    OthersSteps(s0, u, s, u, s', u, e);
  }

  lemma SameStart(s: PT.Phys, u: Users, e: nat, va: nat)
    ensures SameOutside(s, s, u, e, va, va)
  {
  }

  /** The byte at `a`, and bytes already stored below it. */
  lemma StoreNext(s0: PT.Phys, s: PT.Phys, dir: map<nat, nat>, u: Users, e: nat, va: nat, a: nat, v: Byte)
    requires Stands(s, dir, u, e) && Mapped(u, e, a) && va <= a && SameOutside(s0, s, u, e, va, a)
    ensures var s' := StoreByte(s, dir[e], a, v);
      && Stands(s', dir, u, e) && SameOutside(s0, s', u, e, va, a + 1)
      && ByteAt(s', u, e, a) == v && forall b: nat :: va <= b < a ==> ByteAt(s', u, e, b) == ByteAt(s, u, e, b)
  {
    assert e in dir;
    hide *;
    StoreByteView(s, dir, u, e, a, v);
    SameFurther(s0, s, StoreByte(s, dir[e], a, v), u, e, va, a, a + 1);
  }

  /** memset to 0 through the environment's own directory. */
  method Clear(s0: PT.Phys, ghost dir: map<nat, nat>, ghost u: Users, ghost e: nat, d: nat, va: nat, len: nat)
    returns (s: PT.Phys)
    requires e in dir && dir[e] == d && Stands(s0, dir, u, e) && forall a: nat :: va <= a < va + len ==> Mapped(u, e, a)
    ensures Stands(s, dir, u, e) && SameOutside(s0, s, u, e, va, va + len)
    ensures forall a: nat :: va <= a < va + len ==> ByteAt(s, u, e, a) == 0
  {
    SameStart(s0, u, e, va);
    hide *;
    s := s0;
    var i := 0;
    while i < len
      invariant i <= len && Stands(s, dir, u, e) && SameOutside(s0, s, u, e, va, va + i)
      invariant forall a: nat :: va <= a < va + i ==> ByteAt(s, u, e, a) == 0
    {
      StoreNext(s0, s, dir, u, e, va, va + i, 0);
      s := StoreByte(s, d, va + i, 0);
      i := i + 1;
    }
  }

  /** memcpy of `bytes` to `va`. */
  method Copy(s0: PT.Phys, ghost dir: map<nat, nat>, ghost u: Users, ghost e: nat, d: nat, va: nat, bytes: seq<Byte>)
    returns (s: PT.Phys)
    requires e in dir && dir[e] == d && Stands(s0, dir, u, e) && forall a: nat :: va <= a < va + |bytes| ==> Mapped(u, e, a)
    ensures Stands(s, dir, u, e) && SameOutside(s0, s, u, e, va, va + |bytes|)
    ensures forall a: nat :: va <= a < va + |bytes| ==> ByteAt(s, u, e, a) == bytes[a - va]
  {
    SameStart(s0, u, e, va);
    hide *;
    s := s0;
    var i := 0;
    while i < |bytes|
      invariant i <= |bytes| && Stands(s, dir, u, e) && SameOutside(s0, s, u, e, va, va + i)
      invariant forall a: nat :: va <= a < va + i ==> ByteAt(s, u, e, a) == bytes[a - va]
    {
      StoreNext(s0, s, dir, u, e, va, va + i, bytes[i]);
      s := StoreByte(s, d, va + i, bytes[i]);
      i := i + 1;
    }
  }

  /** `e` gained the pages [lo, hi), user-writable, and nothing else changed: not the map, nor a byte of the pages there were. */
  ghost predicate Gained(s: PT.Phys, u: Users, s': PT.Phys, u': Users, e: nat, lo: nat, hi: nat) {
    && (forall k: Slot :: !(k.env == e && lo <= k.pn < hi) ==> (k in u'.pt <==> k in u.pt) && (k in u.pt ==> u'.pt[k] == u.pt[k]))
    && (forall k {:trigger k in u.pt} :: k in u.pt ==> FrameAt(s', u.pt[k].frame) == FrameAt(s, u.pt[k].frame))
    && (forall pn: nat {:trigger Slot(e, pn)} :: lo <= pn < hi ==>
          Slot(e, pn) !in u.pt && Slot(e, pn) in u'.pt && Owned(u'.pt[Slot(e, pn)]))
  }

  lemma NothingGained(s: PT.Phys, u: Users, e: nat, va: nat, len: nat)
    ensures Gained(s, u, s, u, e, FirstPage(va), FirstPage(va)) && FirstPage(va) <= EndPage(va, len)
  {
  }

  // ----- region_alloc: page_alloc and page_insert, page by page -----

  const REGION_PERM: Perm := Plain(PTE_W | PTE_U)

  /** The user page tables that directory `d` names, and those that pages [lo, hi) lie in, by directory slot. */
  function Tables(s: PT.Phys, d: nat): (ts: set<nat>)
    ensures forall i: nat :: i in ts <==> i < PDX_UTOP && Present(PT.Word(s, d, i))
  {
    set i: nat | i < PDX_UTOP && Present(PT.Word(s, d, i))
  }

  function TableSlots(lo: nat, hi: nat): (ts: set<nat>)
    ensures forall pn: nat :: lo <= pn < hi ==> Pdx(pn) in ts
    ensures forall i: nat :: i in ts ==> exists pn: nat :: lo <= pn < hi && Pdx(pn) == i
  {
    set pn: nat | lo <= pn < hi :: Pdx(pn)
  }

  lemma TableSlotsGrow(lo: nat, pn: nat)
    requires lo <= pn
    ensures TableSlots(lo, lo) == {} && TableSlots(lo, pn + 1) == TableSlots(lo, pn) + {Pdx(pn)}
  {
    forall i | i in TableSlots(lo, pn + 1) ensures i in TableSlots(lo, pn) + {Pdx(pn)} {
      var q: nat :| lo <= q < pn + 1 && Pdx(q) == i;
    }
    forall i | i in TableSlots(lo, pn) + {Pdx(pn)} ensures i in TableSlots(lo, pn + 1) {
      if i in TableSlots(lo, pn) {
        var q: nat :| lo <= q < pn && Pdx(q) == i;
      }
    }
  }

  lemma {:induction false} Subset(a: set<nat>, b: set<nat>)
    requires a <= b
    ensures |a| <= |b|
  {
    assert b == a + (b - a) && a !! b - a;
  }

  /** What page_insert leaves of the free list where nothing was mapped before. */
  lemma InsertTakes(s: PT.Phys, loose: set<nat>, d: nat, pp: nat, pn: nat, perm: Perm)
    requires PT.Inv(s, loose, {}) && d in s.dirs && pn < USER_PAGES && pp < |s.mem|
    requires PT.PageLookup(s, d, pn).None? && PT.PageInsert(s, d, pp, pn, perm).ok
    ensures PT.PageInsert(s, d, pp, pn, perm).s.free == if Present(PT.Word(s, d, Pdx(pn))) then s.free else s.free[1..]
    ensures !Present(PT.Word(s, d, Pdx(pn))) ==> s.free != []
  {
    var w := PT.PgdirWalk(s, d, pn, true);
    RC.WalkKeeps(s, loose, {}, d, pn);
    RC.InsertAfterWalk(s, d, pp, pn, perm);
    if !Present(PT.Word(s, d, Pdx(pn))) {
      RC.FreshTableEmpty(s, loose, d, pn);
    }
    assert PT.PageLookup(w.s, d, pn).None?;
    assert w.s.free == if Present(PT.Word(s, d, Pdx(pn))) then s.free else s.free[1..];
    hide PT.PgdirWalk, PT.PageLookup, PT.PageInsert;
    RC.InsertCounts(w.s, d, pp, pn, perm);
  }

  /** page_alloc(0) and page_insert at an unmapped page. */
  lemma AllocInsert(s: PT.Phys, d: nat, pn: nat)
    requires PT.Sound(s) && d in s.dirs && pn < USER_PAGES && s.free != [] && PT.PageLookup(s, d, pn).None?
    ensures var r := PT.PageInsert(PT.PageAlloc(s, false).s, d, s.free[0], pn, REGION_PERM);
      var missing := Pdx(pn) !in Tables(s, d);
      && (r.ok <==> !missing || |s.free| > 1)
      && (r.ok ==>
            && PT.Sound(r.s) && r.s.dirs == s.dirs
            && |r.s.free| == |s.free| - 1 - (if missing then 1 else 0)
            && Tables(r.s, d) == Tables(s, d) + {Pdx(pn)})
  {
    hide *;
    var f, a := s.free[0], PT.PageAlloc(s, false).s;
    var r := PT.PageInsert(a, d, f, pn, REGION_PERM);
    AllocLooks(s, d, pn);
    InsertWorks(a, d, f, pn, REGION_PERM);
    SC.NewPageInsertable(s, false);
    SameDirectories(s, a);
    RC.InsertKeeps(a, {f}, d, f, pn, REGION_PERM);
    PlainFits(a, d, f, pn);
    if r.ok {
      SameDirectories(a, r.s);
      SoundMeans(r.s);
      InsertTakes(a, {f}, d, f, pn, REGION_PERM);
      TablesAfter(s, a, r.s, d, pn);
    }
    InTables(s, d, pn);
  }

  lemma SameDirectories(s: PT.Phys, s': PT.Phys)
    requires RC.SameSpace(s, s')
    ensures s'.dirs == s.dirs && |s'.mem| == |s.mem|
  {
  }

  lemma SoundMeans(s: PT.Phys)
    ensures PT.Sound(s) <==> PT.Inv(s, {}, {})
  {
  }

  lemma PlainFits(s: PT.Phys, d: nat, pp: nat, pn: nat)
    requires RC.Room(s, pp)
    ensures RC.Fits(s, d, pp, pn, REGION_PERM)
  {
  }

  lemma InTables(s: PT.Phys, d: nat, pn: nat)
    requires pn < USER_PAGES
    ensures Pdx(pn) in Tables(s, d) <==> Present(PT.Word(s, d, Pdx(pn)))
  {
    UserPage(pn);
  }

  lemma TablesAfter(s: PT.Phys, a: PT.Phys, r: PT.Phys, d: nat, pn: nat)
    requires d in s.dirs && a.dirs == s.dirs && r.dirs == s.dirs && pn < USER_PAGES && Present(PT.Word(r, d, Pdx(pn)))
    requires forall f, i :: PT.Word(a, f, i) == PT.Word(s, f, i)
    requires forall h :: h != PT.Pte(d, Pdx(pn), Ptx(pn)) && h != PT.Pde(d, Pdx(pn)) ==> PT.Target(r, h) == PT.Target(a, h)
    ensures Tables(r, d) == Tables(s, d) + {Pdx(pn)}
  {
    UserPage(pn);
    TablesAre(a, d);
    TablesAre(r, d);
  }

  lemma AllocLooks(s: PT.Phys, d: nat, pn: nat)
    requires s.free != []
    ensures var a := PT.PageAlloc(s, false).s;
      a.free == s.free[1..] && (forall f, i :: PT.Word(a, f, i) == PT.Word(s, f, i)) && PT.PageLookup(a, d, pn) == PT.PageLookup(s, d, pn)
  {
  }

  lemma InsertWorks(s: PT.Phys, d: nat, pp: nat, pn: nat, perm: Perm)
    ensures PT.PageInsert(s, d, pp, pn, perm).ok <==> Present(PT.Word(s, d, Pdx(pn))) || s.free != []
  {
  }

  lemma TablesAre(s: PT.Phys, d: nat)
    requires d in s.dirs
    ensures forall i: nat :: i in Tables(s, d) <==> i < PDX_UTOP && PT.Target(s, PT.Pde(d, i)).Some?
  {
  }

  /** One turn of region_alloc at an unmapped page: it fails exactly if the free list cannot give the page and, if it is
      missing, the table; otherwise it takes just these. */
  lemma RegionStep(s: PT.Phys, dir: map<nat, nat>, u: Users, e: nat, pn: nat)
    requires Stands(s, dir, u, e) && pn < USER_PAGES && Slot(e, pn) !in u.pt && s.free != []
    ensures var d, f := dir[e], s.free[0]; var r := PT.PageInsert(PT.PageAlloc(s, false).s, d, f, pn, REGION_PERM);
      var missing := Pdx(pn) !in Tables(s, d);
      && (r.ok <==> !missing || |s.free| > 1)
      && (r.ok ==>
            && Stands(r.s, dir, PM.Entered(u, Slot(e, pn), f, REGION_PERM), e)
            && |r.s.free| == |s.free| - 1 - (if missing then 1 else 0)
            && Tables(r.s, d) == Tables(s, d) + {Pdx(pn)})
      && DP.DataKept(s, r.s)
  {
    var d, f := dir[e], s.free[0];
    DP.AllocInsertKeepsData(s, false, d, pn, REGION_PERM);
    var a := PT.PageAlloc(s, false).s;
    PM.SeenAt(s, dir, u, Slot(e, pn));
    PM.LookupSees(s, d, pn);
    SC.NewPageInsertable(s, false);
    PM.FreeIsFresh(s, dir, u, f);
    PM.AllocatedShows(s, dir, u, false);
    AllocInsert(s, d, pn);
    hide PT.Inv, PT.PageInsert, PT.PageAlloc, PM.Shows, Tables, Own, Fresh, DP.DataKept;
    if PT.PageInsert(a, d, f, pn, REGION_PERM).ok {
      PM.InsertShows(a, {f}, dir, u, Slot(e, pn), f, REGION_PERM);
      StillOwn(u, e, pn, f);
    }
  }

  lemma StillOwn(u: Users, e: nat, pn: nat, f: nat)
    requires Own(u, e) && Fresh(u, f)
    ensures Own(PM.Entered(u, Slot(e, pn), f, REGION_PERM), e)
  {
    PlainStores(f, PTE_W | PTE_U);
  }

  /** The frames that pages [lo, hi) take from an environment whose tables are at `ts`: one a page, one a new table. */
  function Frames(ts: set<nat>, lo: nat, hi: nat): int {
    hi - lo + |ts + TableSlots(lo, hi)| - |ts|
  }

  /** After the pages [lo, pn) the free list has shrunk by their frames. */
  ghost predicate Taken(s0: PT.Phys, s: PT.Phys, d: nat, lo: nat, pn: nat) {
    && lo <= pn
    && Tables(s, d) == Tables(s0, d) + TableSlots(lo, pn)
    && |s.free| == |s0.free| - Frames(Tables(s0, d), lo, pn)
  }

  lemma NothingTaken(s: PT.Phys, d: nat, lo: nat)
    ensures Taken(s, s, d, lo, lo) && Frames(Tables(s, d), lo, lo) == 0
  {
    TableSlotsGrow(lo, lo);
    assert Tables(s, d) + TableSlots(lo, lo) == Tables(s, d);
  }

  lemma TakenMore(s0: PT.Phys, s: PT.Phys, s': PT.Phys, d: nat, lo: nat, pn: nat)
    requires Taken(s0, s, d, lo, pn) && Tables(s', d) == Tables(s, d) + {Pdx(pn)}
    requires |s'.free| == |s.free| - 1 - (if Pdx(pn) !in Tables(s, d) then 1 else 0)
    ensures Taken(s0, s', d, lo, pn + 1)
  {
    TableSlotsGrow(lo, pn);
    hide Tables, TableSlots;
    assert Tables(s0, d) + TableSlots(lo, pn + 1) == Tables(s, d) + {Pdx(pn)};
    assert Pdx(pn) in Tables(s, d) ==> Tables(s, d) + {Pdx(pn)} == Tables(s, d);
  }

  /** A shortage at page `pn` is one for the whole region. */
  lemma TooFew(s0: PT.Phys, s: PT.Phys, d: nat, lo: nat, pn: nat, hi: nat)
    requires Taken(s0, s, d, lo, pn) && pn < hi
    requires s.free == [] || (|s.free| == 1 && Pdx(pn) !in Tables(s, d))
    ensures |s0.free| < Frames(Tables(s0, d), lo, hi)
  {
    var t0 := Tables(s0, d);
    TableSlotsGrow(lo, pn);
    assert TableSlots(lo, pn + 1) <= TableSlots(lo, hi) by {
      forall i | i in TableSlots(lo, pn + 1) ensures i in TableSlots(lo, hi) {
        var q: nat :| lo <= q < pn + 1 && Pdx(q) == i;
      }
    }
    hide Tables, TableSlots;
    Subset(t0 + TableSlots(lo, pn), t0 + TableSlots(lo, hi));
    if Pdx(pn) !in Tables(s, d) {
      Subset(Tables(s, d) + {Pdx(pn)}, t0 + TableSlots(lo, hi));
    }
  }

  /** region_alloc; false where it panics for want of a frame, for a page or for its table. */
  method RegionAlloc(s0: PT.Phys, ghost u0: Users, ghost dir: map<nat, nat>, ghost e: nat, d: nat, va: nat, len: nat)
    returns (ok: bool, s: PT.Phys, ghost u: Users)
    requires e in dir && dir[e] == d && Stands(s0, dir, u0, e) && va + len <= UTOP
    requires forall pn :: Covers(va, len, pn) ==> Slot(e, pn) !in u0.pt
    ensures ok ==> Stands(s, dir, u, e) && Gained(s0, u0, s, u, e, FirstPage(va), EndPage(va, len))
    ensures ok <==> |s0.free| >= Frames(Tables(s0, d), FirstPage(va), EndPage(va, len))
    ensures ok ==> Taken(s0, s, d, FirstPage(va), EndPage(va, len))
  {
    hide *;
    s, u := s0, u0;
    var pn, end := FirstPage(va), EndPage(va, len);
    RegionBounds(va, len);
    NothingTaken(s, d, pn);
    NothingGained(s0, u0, e, va, len);
    while pn < end
      invariant FirstPage(va) <= pn <= end
      invariant Stands(s, dir, u, e) && Gained(s0, u0, s, u, e, FirstPage(va), pn)
      invariant Taken(s0, s, d, FirstPage(va), pn)
    {
      NotYet(s0, u0, s, u, e, va, len, pn);
      ok, s, u := RegionPage(s, u, dir, e, d, pn, s0, u0, va, len);
      if !ok {
        return;
      }
      pn := pn + 1;
    }
    ok := true;
    TakenEnough(s0, s, d, FirstPage(va), pn);
  }

  lemma RegionBounds(va: nat, len: nat)
    requires va + len <= UTOP
    ensures EndPage(va, len) <= USER_PAGES
  {
    Layout();
  }

  lemma NotYet(s0: PT.Phys, u0: Users, s: PT.Phys, u: Users, e: nat, va: nat, len: nat, pn: nat)
    requires Gained(s0, u0, s, u, e, FirstPage(va), pn) && FirstPage(va) <= pn < EndPage(va, len)
    requires forall pn :: Covers(va, len, pn) ==> Slot(e, pn) !in u0.pt
    ensures Slot(e, pn) !in u.pt && Slot(e, pn) !in u0.pt
  {
    assert Covers(va, len, pn);
    var k := Slot(e, pn);
    assert !(k.env == e && FirstPage(va) <= k.pn < pn);
  }

  lemma TakenEnough(s0: PT.Phys, s: PT.Phys, d: nat, lo: nat, hi: nat)
    requires Taken(s0, s, d, lo, hi)
    ensures |s0.free| >= Frames(Tables(s0, d), lo, hi)
  {
  }

  /** The loop's body. */
  method RegionPage(s: PT.Phys, ghost u: Users, ghost dir: map<nat, nat>, ghost e: nat, d: nat, pn: nat,
                    ghost s0: PT.Phys, ghost u0: Users, ghost va: nat, ghost len: nat)
    returns (ok: bool, s': PT.Phys, ghost u': Users)
    requires e in dir && dir[e] == d && Stands(s, dir, u, e) && pn < USER_PAGES
    requires FirstPage(va) <= pn < EndPage(va, len) && Slot(e, pn) !in u.pt && Slot(e, pn) !in u0.pt
    requires Gained(s0, u0, s, u, e, FirstPage(va), pn) && Taken(s0, s, d, FirstPage(va), pn)
    ensures ok ==> Stands(s', dir, u', e) && Gained(s0, u0, s', u', e, FirstPage(va), pn + 1) && Taken(s0, s', d, FirstPage(va), pn + 1)
    ensures !ok ==> |s0.free| < Frames(Tables(s0, d), FirstPage(va), EndPage(va, len))
  {
    hide Stands, Gained, Taken, DP.DataKept, FirstPage, EndPage, Tables, Frames, PT.PageInsert;
    var pp := PT.PageAlloc(s, false);
    if pp.frame.None? {
      TooFew(s0, s, d, FirstPage(va), pn, EndPage(va, len));
      return false, s, u;
    }
    RegionStep(s, dir, u, e, pn);
    var r := PT.PageInsert(pp.s, d, pp.frame.value, pn, REGION_PERM);
    if !r.ok {
      TooFew(s0, s, d, FirstPage(va), pn, EndPage(va, len));
      return false, s, u;
    }
    TakenMore(s0, s, r.s, d, FirstPage(va), pn);
    GainPage(s0, u0, s, u, r.s, dir, e, FirstPage(va), pn, pp.frame.value);
    return true, r.s, PM.Entered(u, Slot(e, pn), pp.frame.value, REGION_PERM);
  }

  /** One page more. */
  lemma GainPage(s0: PT.Phys, u0: Users, s: PT.Phys, u: Users, s': PT.Phys, dir: map<nat, nat>, e: nat, lo: nat, pn: nat, f: nat)
    requires lo <= pn && Gained(s0, u0, s, u, e, lo, pn) && Slot(e, pn) !in u0.pt && Stands(s, dir, u, e) && DP.DataKept(s, s')
    ensures Gained(s0, u0, s', PM.Entered(u, Slot(e, pn), f, REGION_PERM), e, lo, pn + 1)
  {
    PlainStores(f, PTE_W | PTE_U);
    RegionOwned(f);
    hide PT.Inv, PM.Shows, DP.Data;
    forall k {:trigger k in u0.pt} | k in u0.pt ensures FrameAt(s', u0.pt[k].frame) == FrameAt(s0, u0.pt[k].frame) {
      assert k in u.pt && u.pt[k] == u0.pt[k];
      PM.MappedIsData(s, dir, u, k);
    }
    hide FrameAt;
  }

  lemma RegionOwned(f: nat)
    ensures Owned(PresentEntry(f, PTE_W | PTE_U))
  {
  }

  predicate WellFormed(seg: Segment, image: seq<Byte>) {
    seg.load ==> seg.va + seg.memsz <= UTOP && seg.filesz <= seg.memsz && seg.offset + seg.filesz <= |image|
  }

  /** The segment's file bytes, then zeros, in user-writable pages. */
  ghost predicate Loaded(s: PT.Phys, u: Users, e: nat, image: seq<Byte>, seg: Segment)
    requires WellFormed(seg, image) && seg.load
  {
    && (forall a: nat :: seg.va <= a < seg.va + seg.memsz ==>
          ByteAt(s, u, e, a) == if a - seg.va < seg.filesz then image[seg.offset + (a - seg.va)] else 0)
    && (forall pn: nat {:trigger Slot(e, pn)} :: Covers(seg.va, seg.memsz, pn) ==> Slot(e, pn) in u.pt && Owned(u.pt[Slot(e, pn)]))
  }

  /** `e` gained the pages of [va, va + len); the pages it had, and everyone else's, are as before. */
  ghost predicate Extends(s: PT.Phys, u: Users, s': PT.Phys, u': Users, e: nat, va: nat, len: nat) {
    && OthersSame(s, u, s', u', e)
    && (forall pn: nat {:trigger Slot(e, pn)} :: Slot(e, pn) in u'.pt <==> Slot(e, pn) in u.pt || Covers(va, len, pn))
    && (forall pn: nat {:trigger Slot(e, pn)} :: Slot(e, pn) in u.pt && !Covers(va, len, pn) ==> u'.pt[Slot(e, pn)] == u.pt[Slot(e, pn)])
    && (forall a: nat :: Mapped(u, e, a) && !Covers(va, len, a / 4096) ==> ByteAt(s', u', e, a) == ByteAt(s, u, e, a))
  }

  lemma CoveredMapped(s: PT.Phys, u: Users, s': PT.Phys, u': Users, e: nat, va: nat, len: nat)
    requires Gained(s, u, s', u', e, FirstPage(va), EndPage(va, len))
    ensures forall a: nat :: va <= a < va + len ==> Mapped(u', e, a) && Covers(va, len, a / 4096)
    ensures Extends(s, u, s', u', e, va, len)
    ensures forall pn: nat {:trigger Slot(e, pn)} :: Covers(va, len, pn) ==> Slot(e, pn) in u'.pt && Owned(u'.pt[Slot(e, pn)])
  {
    hide FrameAt;
    forall a: nat | va <= a < va + len ensures Covers(va, len, a / 4096) {
    }
  }

  lemma StillExtends(s: PT.Phys, u: Users, s1: PT.Phys, s2: PT.Phys, u': Users, e: nat, va: nat, len: nat)
    requires Extends(s, u, s1, u', e, va, len) && SameOutside(s1, s2, u', e, va, va + len)
    ensures Extends(s, u, s2, u', e, va, len)
  {
    OthersSteps(s, u, s1, u', s2, u', e);
    hide ByteAt, OthersSame, PT.Target;
    forall a: nat | va <= a < va + len ensures Covers(va, len, a / 4096) {
    }
    assert forall a: nat :: Mapped(u, e, a) && !Covers(va, len, a / 4096) ==> a < va || a >= va + len;
  }

  /** Writing bytes takes no frame and makes no table. */
  lemma StillTaken(s0: PT.Phys, s: PT.Phys, s': PT.Phys, u: Users, e: nat, d: nat, lo: nat, hi: nat, va: nat, len: nat)
    requires Taken(s0, s, d, lo, hi) && d in s.dirs && SameOutside(s, s', u, e, va, va + len)
    ensures Taken(s0, s', d, lo, hi)
  {
    TablesAre(s, d);
    TablesAre(s', d);
    hide OthersSame, ByteAt, TableSlots, PT.Target;
    assert Tables(s', d) == Tables(s, d);
    hide Tables;
  }

  /** The memset and memcpy of load_icode's loop. */
  method Fill(s0: PT.Phys, ghost dir: map<nat, nat>, ghost u: Users, ghost e: nat, d: nat, image: seq<Byte>, seg: Segment)
    returns (s: PT.Phys)
    requires WellFormed(seg, image) && seg.load && e in dir && dir[e] == d && Stands(s0, dir, u, e)
    requires forall a: nat :: seg.va <= a < seg.va + seg.memsz ==> Mapped(u, e, a)
    ensures Stands(s, dir, u, e) && SameOutside(s0, s, u, e, seg.va, seg.va + seg.memsz)
    ensures forall a: nat :: seg.va <= a < seg.va + seg.memsz ==>
      ByteAt(s, u, e, a) == if a - seg.va < seg.filesz then image[seg.offset + (a - seg.va)] else 0
  {
    hide ByteAt, Stands, Mapped, OthersSame, PT.Target;
    s := Clear(s0, dir, u, e, d, seg.va, seg.memsz);
    ghost var s1 := s;
    s := Copy(s, dir, u, e, d, seg.va, image[seg.offset..seg.offset + seg.filesz]);
    OthersSteps(s0, u, s1, u, s, u, e);
  }

  /** One turn of load_icode's loop. */
  method LoadSegment(s0: PT.Phys, ghost u0: Users, ghost dir: map<nat, nat>, ghost e: nat, d: nat, image: seq<Byte>, seg: Segment)
    returns (ok: bool, s: PT.Phys, ghost u: Users)
    requires WellFormed(seg, image) && seg.load && e in dir && dir[e] == d && Stands(s0, dir, u0, e)
    requires forall pn :: Covers(seg.va, seg.memsz, pn) ==> Slot(e, pn) !in u0.pt
    ensures ok ==> Stands(s, dir, u, e) && Loaded(s, u, e, image, seg) && Extends(s0, u0, s, u, e, seg.va, seg.memsz)
    ensures ok <==> |s0.free| >= Frames(Tables(s0, d), FirstPage(seg.va), EndPage(seg.va, seg.memsz))
    ensures ok ==> Taken(s0, s, d, FirstPage(seg.va), EndPage(seg.va, seg.memsz))
  {
    assert seg.va + seg.memsz <= UTOP;
    hide *;
    ok, s, u := RegionAlloc(s0, u0, dir, e, d, seg.va, seg.memsz);
    if ok {
      ghost var s1 := s;
      StandsIn(s, dir, u, e);
      CoveredMapped(s0, u0, s, u, e, seg.va, seg.memsz);
      s := Fill(s, dir, u, e, d, image, seg);
      StillExtends(s0, u0, s1, s, u, e, seg.va, seg.memsz);
      StillTaken(s0, s1, s, u, e, d, FirstPage(seg.va), EndPage(seg.va, seg.memsz), seg.va, seg.memsz);
      NowLoaded(s, u, e, image, seg);
    }
  }

  lemma StandsIn(s: PT.Phys, dir: map<nat, nat>, u: Users, e: nat)
    requires Stands(s, dir, u, e)
    ensures dir[e] in s.dirs
  {
    hide PT.Inv;
  }

  lemma NowLoaded(s: PT.Phys, u: Users, e: nat, image: seq<Byte>, seg: Segment)
    requires WellFormed(seg, image) && seg.load
    requires forall pn: nat {:trigger Slot(e, pn)} :: Covers(seg.va, seg.memsz, pn) ==> Slot(e, pn) in u.pt && Owned(u.pt[Slot(e, pn)])
    requires forall a: nat :: seg.va <= a < seg.va + seg.memsz ==>
      ByteAt(s, u, e, a) == if a - seg.va < seg.filesz then image[seg.offset + (a - seg.va)] else 0
    ensures Loaded(s, u, e, image, seg)
  {
  }

  ghost predicate Apart(seg: Segment, va: nat, len: nat) {
    forall pn: nat :: !(Covers(seg.va, seg.memsz, pn) && Covers(va, len, pn))
  }

  const STACK_VA: nat := USTACKTOP - PGSIZE

  /** No two loadable segments, nor a segment and the stack page, touch the same page. */
  ghost predicate PageDisjoint(segs: seq<Segment>) {
    && (forall i, j :: 0 <= i < j < |segs| && segs[i].load && segs[j].load ==> Apart(segs[i], segs[j].va, segs[j].memsz))
    && (forall i :: 0 <= i < |segs| && segs[i].load ==> Apart(segs[i], STACK_VA, PGSIZE))
  }

  /** A later region leaves a loaded segment alone. */
  lemma StillLoaded(s: PT.Phys, u: Users, s': PT.Phys, u': Users, e: nat, image: seq<Byte>, seg: Segment, va: nat, len: nat)
    requires WellFormed(seg, image) && seg.load && Loaded(s, u, e, image, seg) && Extends(s, u, s', u', e, va, len) && Apart(seg, va, len)
    ensures Loaded(s', u', e, image, seg)
  {
    hide ByteAt;
    forall a: nat | seg.va <= a < seg.va + seg.memsz ensures ByteAt(s', u', e, a) == ByteAt(s, u, e, a) {
      assert Covers(seg.va, seg.memsz, a / 4096);
      assert Slot(e, a / 4096) in u.pt;
    }
  }

  /** The pages of `e` are those of the first n segments. */
  ghost predicate Touched(u: Users, e: nat, segs: seq<Segment>, n: nat) {
    forall pn: nat {:trigger Slot(e, pn)} :: Slot(e, pn) in u.pt ==>
      exists j :: 0 <= j < n && j < |segs| && segs[j].load && Covers(segs[j].va, segs[j].memsz, pn)
  }

  lemma TouchedMore(s: PT.Phys, u: Users, s': PT.Phys, u': Users, e: nat, segs: seq<Segment>, n: nat)
    requires Touched(u, e, segs, n) && n < |segs| && segs[n].load && Extends(s, u, s', u', e, segs[n].va, segs[n].memsz)
    ensures Touched(u', e, segs, n + 1)
  {
  }

  lemma Untouched(u: Users, e: nat, segs: seq<Segment>, n: nat, va: nat, len: nat)
    requires Touched(u, e, segs, n) && forall j :: 0 <= j < n && j < |segs| && segs[j].load ==> Apart(segs[j], va, len)
    ensures forall pn :: Covers(va, len, pn) ==> Slot(e, pn) !in u.pt
  {
  }

  lemma StackPage()
    ensures FirstPage(STACK_VA) == STACK_PAGES - 1 && EndPage(STACK_VA, PGSIZE) == STACK_PAGES
    ensures Covers(STACK_VA, PGSIZE, STACK_PAGES - 1)
  {
    UserLayout();
  }

  /** The pages that the first n segments take, and the slots of their tables. */
  function PagesOf(segs: seq<Segment>, n: nat): nat {
    if n == 0 || n > |segs| then 0
    else PagesOf(segs, n - 1) + if segs[n - 1].load then Pages(segs[n - 1].va, segs[n - 1].memsz) else 0
  }

  function SlotsOf(segs: seq<Segment>, n: nat): set<nat> {
    if n == 0 || n > |segs| then {}
    else
      var seg := segs[n - 1];
      SlotsOf(segs, n - 1) + if seg.load then TableSlots(FirstPage(seg.va), EndPage(seg.va, seg.memsz)) else {}
  }

  /** What load_icode takes from the free list: one frame for each page of a loadable segment, one for the stack, and one
      for every directory slot that these pages fall under. */
  function Needed(segs: seq<Segment>): nat {
    PagesOf(segs, |segs|) + 1 + |SlotsOf(segs, |segs|) + {Pdx(STACK_PAGES - 1)}|
  }

  lemma {:induction false} NeededGrows(segs: seq<Segment>, n: nat, m: nat)
    requires n <= m <= |segs|
    ensures PagesOf(segs, n) <= PagesOf(segs, m) && SlotsOf(segs, n) <= SlotsOf(segs, m)
  {
    if n < m {
      NeededGrows(segs, n, m - 1);
    }
  }

  lemma NeededEnough(segs: seq<Segment>, n: nat)
    requires n <= |segs|
    ensures PagesOf(segs, n) + |SlotsOf(segs, n)| < Needed(segs)
  {
    NeededGrows(segs, n, |segs|);
    Subset(SlotsOf(segs, n), SlotsOf(segs, |segs|) + {Pdx(STACK_PAGES - 1)});
  }

  /** load_icode has taken the frames of the first n segments. */
  ghost predicate Charged(s0: PT.Phys, s: PT.Phys, d: nat, segs: seq<Segment>, n: nat) {
    && n <= |segs|
    && Tables(s, d) == SlotsOf(segs, n)
    && |s.free| == |s0.free| - PagesOf(segs, n) - |SlotsOf(segs, n)|
  }

  lemma ChargedMore(s0: PT.Phys, s: PT.Phys, s': PT.Phys, d: nat, segs: seq<Segment>, n: nat)
    requires Charged(s0, s, d, segs, n) && n < |segs| && segs[n].load
    requires Taken(s, s', d, FirstPage(segs[n].va), EndPage(segs[n].va, segs[n].memsz))
    ensures Charged(s0, s', d, segs, n + 1)
  {
    hide Tables, TableSlots;
  }

  lemma ChargedTooMuch(s0: PT.Phys, s: PT.Phys, d: nat, segs: seq<Segment>, n: nat)
    requires Charged(s0, s, d, segs, n) && n < |segs| && segs[n].load
    requires |s.free| < Frames(Tables(s, d), FirstPage(segs[n].va), EndPage(segs[n].va, segs[n].memsz))
    ensures |s0.free| < Needed(segs)
  {
    hide Tables, TableSlots, Needed;
    NeededEnough(segs, n + 1);
  }

  lemma ChargedAll(s0: PT.Phys, s: PT.Phys, d: nat, segs: seq<Segment>)
    requires Charged(s0, s, d, segs, |segs|)
    ensures |s.free| < Frames(Tables(s, d), STACK_PAGES - 1, STACK_PAGES) <==> |s0.free| < Needed(segs)
  {
    TableSlotsGrow(STACK_PAGES - 1, STACK_PAGES - 1);
    hide Tables, TableSlots;
    assert {} + {Pdx(STACK_PAGES - 1)} == {Pdx(STACK_PAGES - 1)};
  }

  /** A new environment has no user page table. */
  lemma NewEnvironmentReady(s: PT.Phys, dir: map<nat, nat>, u: Users, e: nat)
    requires PT.Sound(s) && PM.Shows(s, dir, u) && e !in dir && PT.EnvSetupVm(s).frame.Some?
    ensures var s', d := PT.EnvSetupVm(s).s, PT.EnvSetupVm(s).frame.value;
      && Stands(s', dir[e := d], u, e) && Tables(s', d) == {} && |s'.free| == |s.free| - 1
      && forall pn: nat {:trigger Slot(e, pn)} :: Slot(e, pn) !in u.pt
  {
    LT.SetupKeeps(s);
    PM.SetupShows(s, dir, u, e);
    EmptyHalf(s, PT.EnvSetupVm(s).s, PT.EnvSetupVm(s).frame.value);
    NoPages(s, dir, u, e);
    hide PT.Inv, PT.EnvSetupVm, PM.Shows, LT.Gains, Tables;
  }

  lemma EmptyHalf(s: PT.Phys, s': PT.Phys, d: nat)
    requires PT.Sound(s) && LT.Gains(s, s', d)
    ensures Tables(s', d) == {}
  {
    forall i: nat ensures i !in Tables(s', d) {
      if i < PDX_UTOP {
        assert PT.Word(s', d, i) == PT.Word(s, s.kdir, i);
      }
    }
  }

  lemma NoPages(s: PT.Phys, dir: map<nat, nat>, u: Users, e: nat)
    requires PM.Shows(s, dir, u) && e !in dir
    ensures Own(u, e) && forall pn: nat {:trigger Slot(e, pn)} :: Slot(e, pn) !in u.pt
  {
  }

  /** load_icode for a new environment. Every loadable segment is in place, each page has a frame of its own, and nobody
      else's memory has changed. False stands for the panic when frames run out. */
  method LoadIcode(s0: PT.Phys, ghost u0: Users, ghost dir: map<nat, nat>, ghost e: nat, d: nat, image: seq<Byte>, segs: seq<Segment>)
    returns (ok: bool, s: PT.Phys, ghost u: Users)
    requires e in dir && dir[e] == d && Stands(s0, dir, u0, e) && Tables(s0, d) == {}
    requires forall pn: nat {:trigger Slot(e, pn)} :: Slot(e, pn) !in u0.pt
    requires PageDisjoint(segs) && forall i :: 0 <= i < |segs| ==> WellFormed(segs[i], image)
    ensures ok <==> |s0.free| >= Needed(segs)
    ensures ok ==> Stands(s, dir, u, e) && OthersSame(s0, u0, s, u, e)
    ensures ok ==> forall i :: 0 <= i < |segs| && segs[i].load ==> Loaded(s, u, e, image, segs[i])
    ensures ok ==> Slot(e, STACK_PAGES - 1) in u.pt && Owned(u.pt[Slot(e, STACK_PAGES - 1)])
  {
    s, u := s0, u0;
    var i := 0;
    hide Stands, Loaded, Extends, OthersSame, Covers, Gained, Pages, Tables, Taken, Frames;
    NobodyChanged(s0, u0, e);
    NothingCharged(s0, u0, e, d, segs);
    hide Charged, Touched, Needed, Apart, WellFormed, Owned;
    while i < |segs|
      invariant 0 <= i <= |segs| && Stands(s, dir, u, e) && OthersSame(s0, u0, s, u, e) && Touched(u, e, segs, i)
      invariant Charged(s0, s, d, segs, i)
      invariant forall j :: 0 <= j < i && segs[j].load ==> Loaded(s, u, e, image, segs[j])
    {
      if segs[i].load {
        ghost var u1 := u;
        ghost var s1 := s;
        Untouched(u, e, segs, i, segs[i].va, segs[i].memsz);
        ok, s, u := LoadSegment(s, u, dir, e, d, image, segs[i]);
        if !ok {
          ChargedTooMuch(s0, s1, d, segs, i);
          return;
        }
        ChargedMore(s0, s1, s, d, segs, i);
        ExtendsOthers(s0, u0, s1, u1, s, u, e, segs[i].va, segs[i].memsz);
        TouchedMore(s1, u1, s, u, e, segs, i);
        forall j | 0 <= j < i && segs[j].load ensures Loaded(s, u, e, image, segs[j]) {
          StillLoaded(s1, u1, s, u, e, image, segs[j], segs[i].va, segs[i].memsz);
        }
      }
      i := i + 1;
    }
    ghost var u2 := u;
    ghost var s2 := s;
    StackPage();
    ChargedAll(s0, s, d, segs);
    Untouched(u, e, segs, i, STACK_VA, PGSIZE);
    ok, s, u := RegionAlloc(s, u, dir, e, d, STACK_VA, PGSIZE);
    if ok {
      CoveredMapped(s2, u2, s, u, e, STACK_VA, PGSIZE);
      ExtendsOthers(s0, u0, s2, u2, s, u, e, STACK_VA, PGSIZE);
      StackGained(s2, u2, s, u, e);
      forall j | 0 <= j < i && segs[j].load ensures Loaded(s, u, e, image, segs[j]) {
        StillLoaded(s2, u2, s, u, e, image, segs[j], STACK_VA, PGSIZE);
      }
    }
  }

  lemma NothingCharged(s: PT.Phys, u: Users, e: nat, d: nat, segs: seq<Segment>)
    requires Tables(s, d) == {} && forall pn: nat {:trigger Slot(e, pn)} :: Slot(e, pn) !in u.pt
    ensures Charged(s, s, d, segs, 0) && Touched(u, e, segs, 0)
  {
  }

  lemma NobodyChanged(s: PT.Phys, u: Users, e: nat)
    ensures OthersSame(s, u, s, u, e)
  {
  }

  lemma ExtendsOthers(s0: PT.Phys, u0: Users, s: PT.Phys, u: Users, s': PT.Phys, u': Users, e: nat, va: nat, len: nat)
    requires OthersSame(s0, u0, s, u, e) && Extends(s, u, s', u', e, va, len)
    ensures OthersSame(s0, u0, s', u', e)
  {
    OthersSteps(s0, u0, s, u, s', u', e);
  }

  lemma StackGained(s: PT.Phys, u: Users, s': PT.Phys, u': Users, e: nat)
    requires Gained(s, u, s', u', e, FirstPage(STACK_VA), EndPage(STACK_VA, PGSIZE))
    ensures Slot(e, STACK_PAGES - 1) in u'.pt && Owned(u'.pt[Slot(e, STACK_PAGES - 1)])
  {
    StackPage();
  }
}
