/** The physical-page and page-table operations of kern/pmap.c as functions on a value:
    reference counts, the free list (as the sequence it links) and the words of every frame. */
module PageTables {
  import opened Mmu
  import opened Options

  /** `dirs` are the frames of the live `env_pgdir`s, `kdir` the frame of `kern_pgdir` and
      `reserved` the frames that `page_init` withholds. */
  datatype Phys = Phys(
    refs: seq<nat>,
    free: seq<nat>,
    mem: seq<seq<Entry>>,
    kdir: nat,
    dirs: set<nat>,
    reserved: set<nat>)

  /** A new state and the frame it hands out, if any. */
  datatype Got = Got(s: Phys, frame: Option<nat>)

  /** pp_ref is a uint16_t. */
  const REF_LIMIT: nat := 0x1_0000

  function Word(s: Phys, f: nat, i: nat): Entry {
    if f < |s.mem| && i < |s.mem[f]| then s.mem[f][i] else ABSENT
  }

  /** Writes outside physical memory, where the C code panics in KADDR or pa2page, change nothing
      here; the invariant below rules them out. */
  function Store(s: Phys, f: nat, i: nat, e: Entry): Phys {
    if f < |s.mem| && i < |s.mem[f]| then s.(mem := s.mem[f := s.mem[f][i := e]]) else s
  }

  /** What memset leaves in a page allocated with ALLOC_ZERO. */
  function ZeroPage(): (page: seq<Entry>)
    ensures |page| == NPTENTRIES && forall i :: 0 <= i < NPTENTRIES ==> page[i] == ABSENT
  {
    seq(NPTENTRIES, i => ABSENT)
  }

  predicate Shape(s: Phys) {
    && |s.refs| == |s.mem|
    && (forall p :: 0 <= p < |s.refs| ==> s.refs[p] < REF_LIMIT)
    && (forall f :: 0 <= f < |s.mem| ==> |s.mem[f]| == NPTENTRIES)
    && (forall k :: 0 <= k < |s.free| ==> s.free[k] < |s.mem|)
    && (forall d :: d in s.dirs ==> d < |s.mem|)
    && (forall p :: p in s.reserved ==> p < |s.mem|)
    && s.kdir in s.reserved
  }

  function Named(e: Entry): Option<nat> {
    if Present(e) then Some(e.frame) else None
  }

  // ----- page_alloc, page_free, page_decref -----

  function PageAlloc(s: Phys, zero: bool): Got
  {
    if s.free == [] then Got(s, None)
    else
      var f := s.free[0];
      Got(s.(free := s.free[1..], mem := if zero && f < |s.mem| then s.mem[f := ZeroPage()] else s.mem), Some(f))
  }

  /** page_free; with a count or a link left the C code panics instead. */
  function PageFree(s: Phys, p: nat): Phys {
    s.(free := [p] + s.free)
  }

  function IncRef(s: Phys, p: nat): Phys {
    if p < |s.refs| then s.(refs := s.refs[p := (s.refs[p] + 1) % REF_LIMIT]) else s
  }

  function PageDecref(s: Phys, p: nat): Phys {
    if p >= |s.refs| then s
    else
      var r := (s.refs[p] - 1) % REF_LIMIT;
      s.(refs := s.refs[p := r], free := if r == 0 then [p] + s.free else s.free)
  }

  // ----- pgdir_walk, page_lookup, page_remove, page_insert -----

  /** The table frame whose entry `Ptx(pn)` pgdir_walk points to, or None where it returns NULL. */
  function PgdirWalk(s: Phys, d: nat, pn: nat, create: bool): Got
  {
    var pde := Word(s, d, Pdx(pn));
    if Present(pde) then Got(s, Some(pde.frame))
    else if !create then Got(s, None)
    else
      var r := PageAlloc(s, true);
      if r.frame.None? then r
      else
        var t := r.frame.value;
        Got(Store(IncRef(r.s, t), d, Pdx(pn), PresentEntry(t, PTE_U | PTE_W)), Some(t))
  }

  function PageLookup(s: Phys, d: nat, pn: nat): Option<nat>
  {
    var pt := PgdirWalk(s, d, pn, false).frame;
    if pt.None? then None else Named(Word(s, pt.value, Ptx(pn)))
  }

  /** The permission bits page_lookup hands back through `pte_store`. */
  function LookupFlags(s: Phys, d: nat, pn: nat): Flags {
    Word(s, Word(s, d, Pdx(pn)).frame, Ptx(pn)).flags
  }

  function PageRemove(s: Phys, d: nat, pn: nat): Phys
  {
    var pp := PageLookup(s, d, pn);
    if pp.None? then s
    else Store(PageDecref(s, pp.value), Word(s, d, Pdx(pn)).frame, Ptx(pn), ABSENT)
  }

  /** page_insert; `ok` is false for -E_NO_MEM. The count goes up before the old page goes away. */
  datatype Inserted = Inserted(s: Phys, ok: bool)

  function PageInsert(s: Phys, d: nat, pp: nat, pn: nat, perm: Perm): Inserted
  {
    var walk := PgdirWalk(s, d, pn, true);
    if walk.frame.None? then Inserted(s, false)
    else
      var t := walk.frame.value;
      var s1 := IncRef(walk.s, pp);
      var s2 := if Present(Word(s1, t, Ptx(pn))) then PageRemove(s1, d, pn) else s1;
      Inserted(Store(s2, t, Ptx(pn), StoredEntry(pp, perm)), true)
  }

  // ----- env_setup_vm, env_free -----

  /** The once-counted copy of kern_pgdir, with its own UVPT slot, that frame `d` becomes. */
  function MakeDirectory(s: Phys, d: nat): Phys {
    var s1 := IncRef(s, d);
    var s2 := if d < |s.mem| && s.kdir < |s.mem| then s1.(mem := s1.mem[d := s1.mem[s.kdir]]) else s1;
    Store(s2.(dirs := s2.dirs + {d}), d, PDX_UVPT, PresentEntry(d, PTE_U))
  }

  function EnvSetupVm(s: Phys): Got {
    var r := PageAlloc(s, true);
    if r.frame.None? then r else Got(MakeDirectory(r.s, r.frame.value), r.frame)
  }

  /** The inner loop of env_free: unmap entries j.. of the table at directory slot i. */
  function UnmapFrom(s: Phys, d: nat, i: nat, j: nat): Phys
    decreases NPTENTRIES - j
  {
    if j >= NPTENTRIES then s
    else
      var s' := if Present(Word(s, Word(s, d, i).frame, j)) then PageRemove(s, d, PageAt(i, j)) else s;
      UnmapFrom(s', d, i, j + 1)
  }

  /** Clear directory slot i and drop the table it named. */
  function DropTable(s: Phys, d: nat, i: nat): Phys {
    PageDecref(Store(s, d, i, ABSENT), Word(s, d, i).frame)
  }

  /** The outer loop of env_free from directory slot i on. */
  function FreeTablesFrom(s: Phys, d: nat, i: nat): Phys
    decreases PDX_UTOP - i
  {
    if i >= PDX_UTOP then s
    else if !Present(Word(s, d, i)) then FreeTablesFrom(s, d, i + 1)
    else FreeTablesFrom(DropTable(UnmapFrom(s, d, i, 0), d, i), d, i + 1)
  }

  function DropDirectory(s: Phys, d: nat): Phys {
    PageDecref(s.(dirs := s.dirs - {d}), d)
  }

  /** The memory half of env_free. */
  function EnvFree(s: Phys, d: nat): Phys {
    DropDirectory(FreeTablesFrom(s, d, 0), d)
  }

  // ----- the page system calls, on resolved environments -----

  datatype Code = Ok | Inval | NoMem

  datatype Sys = Sys(s: Phys, code: Code)

  predicate BadAddress(va: nat) {
    va >= UTOP || va % PGSIZE != 0
  }

  function SysPageAlloc(s: Phys, d: nat, va: nat, perm: Perm): Sys {
    if BadAddress(va) || !Has(perm.flags, PTE_U | PTE_P) then Sys(s, Inval)
    else
      var r := PageAlloc(s, true);
      if r.frame.None? then Sys(s, NoMem)
      else
        var ins := PageInsert(r.s, d, r.frame.value, PageNum(va), perm);
        if ins.ok then Sys(ins.s, Ok) else Sys(PageFree(ins.s, r.frame.value), NoMem)
  }

  function SysPageMap(s: Phys, sd: nat, srcva: nat, dd: nat, dstva: nat, perm: Perm): Sys {
    if BadAddress(srcva) || BadAddress(dstva) then Sys(s, Inval)
    else
      var pg := PageLookup(s, sd, PageNum(srcva));
      if pg.None? || !Has(perm.flags, PTE_U | PTE_P) then Sys(s, Inval)
      else if !Has(LookupFlags(s, sd, PageNum(srcva)), PTE_W) && Has(perm.flags, PTE_W) then Sys(s, Inval)
      else
        var ins := PageInsert(s, dd, pg.value, PageNum(dstva), perm);
        Sys(ins.s, if ins.ok then Ok else NoMem)
  }

  function SysPageUnmap(s: Phys, d: nat, va: nat): Sys {
    if BadAddress(va) then Sys(s, Inval) else Sys(PageRemove(s, d, PageNum(va)), Ok)
  }

  // ----- what the hardware sees -----

  /** A translation as the MMU would use it: the directory's permissions and the table entry. */
  datatype Xlat = Xlat(dirFlags: Flags, entry: Entry)

  function Translate(s: Phys, d: nat, pn: nat): Option<Xlat> {
    var pde := Word(s, d, Pdx(pn));
    if !Present(pde) then None
    else
      var pte := Word(s, pde.frame, Ptx(pn));
      if Present(pte) then Some(Xlat(pde.flags, pte)) else None
  }

  // ----- who refers to a page -----

  /** Everything that pp_ref is documented to count. */
  datatype Ref =
    | Boot(page: nat)                 // withheld by page_init
    | Dir(dir: nat)                   // a live env_pgdir
    | Pde(dir: nat, i: nat)           // a user page table named by directory `dir`
    | Pte(dir: nat, i: nat, j: nat)   // a page mapped below UTOP by `dir`
    | Kern(i: nat)                    // a kern_pgdir table at or above UTOP

  /** The page a reference counts for, or None when there is no such reference. */
  function Target(s: Phys, h: Ref): Option<nat> {
    match h
    case Boot(p) => if p in s.reserved then Some(p) else None
    case Dir(d) => if d in s.dirs then Some(d) else None
    case Pde(d, i) => if d in s.dirs && i < PDX_UTOP then Named(Word(s, d, i)) else None
    case Pte(d, i, j) =>
      if d in s.dirs && i < PDX_UTOP && Present(Word(s, d, i)) then Named(Word(s, Word(s, d, i).frame, j)) else None
    case Kern(i) =>
      if PDX_UTOP <= i < NPDENTRIES && i != PDX_UVPT then Named(Word(s, s.kdir, i)) else None
  }

  predicate Bounded(n: nat, h: Ref) {
    match h
    case Boot(p) => p < n
    case Dir(d) => d < n
    case Pde(d, i) => d < n && i < NPDENTRIES
    case Pte(d, i, j) => d < n && i < NPDENTRIES && j < NPTENTRIES
    case Kern(i) => i < NPDENTRIES
  }

  ghost function AllRefs(n: nat): (all: set<Ref>)
    ensures forall h {:trigger h in all} :: h in all <==> Bounded(n, h)
  {
    (set p: nat | 0 <= p < n :: Boot(p)) + (set d: nat | 0 <= d < n :: Dir(d))
    + (set d: nat, i: nat | 0 <= d < n && 0 <= i < NPDENTRIES :: Pde(d, i))
    + (set d: nat, i: nat, j: nat | 0 <= d < n && 0 <= i < NPDENTRIES && 0 <= j < NPTENTRIES :: Pte(d, i, j))
    + (set i: nat | 0 <= i < NPDENTRIES :: Kern(i))
  }

  ghost function Holders(s: Phys, p: nat): (hs: set<Ref>)
    ensures forall h {:trigger h in hs} :: h in hs <==> Bounded(|s.mem|, h) && Target(s, h) == Some(p)
  {
    set h | h in AllRefs(|s.mem|) && Target(s, h) == Some(p)
  }

  // ----- the invariant -----

  /** A frame that serves as a directory, a table or boot memory has exactly one reference. */
  ghost predicate Exclusive(s: Phys) {
    forall h, k :: Target(s, h).Some? && !h.Pte? && Target(s, k) == Target(s, h) ==> h == k
  }

  predicate NoDuplicates(q: seq<nat>) {
    forall i, j :: 0 <= i < j < |q| ==> q[i] != q[j]
  }

  ghost predicate InRange(s: Phys) {
    forall h :: Target(s, h).Some? ==> Target(s, h).value < |s.mem|
  }

  /** Kernel halves: kern_pgdir maps nothing below UTOP; every directory shares kern_pgdir's
      tables above UTOP and holds itself in its UVPT slot. */
  ghost predicate KernelHalf(s: Phys) {
    && (forall i :: 0 <= i < PDX_UTOP ==> !Present(Word(s, s.kdir, i)))
    && (forall d, i :: d in s.dirs && PDX_UTOP <= i < NPDENTRIES && i != PDX_UVPT
          ==> Word(s, d, i) == Word(s, s.kdir, i))
    && (forall d :: d in s.dirs || d == s.kdir ==> Word(s, d, PDX_UVPT) == PresentEntry(d, PTE_U))
  }

  /** Exact counts. `loose` pages are off the free list without a reference yet, and each
      `pinned` page carries one count whose entry is still to be written. */
  ghost predicate Exact(s: Phys, pinned: set<nat>)
    requires |s.refs| == |s.mem|
  {
    forall p :: 0 <= p < |s.mem| ==> s.refs[p] == |Holders(s, p)| + (if p in pinned then 1 else 0)
  }

  ghost predicate FreeExact(s: Phys, loose: set<nat>)
    requires |s.refs| == |s.mem|
  {
    && NoDuplicates(s.free)
    && (forall p :: p in loose ==> p < |s.mem| && p !in s.free)
    && (forall p :: 0 <= p < |s.mem| ==> (s.refs[p] == 0 <==> p in s.free || p in loose))
  }

  ghost predicate Inv(s: Phys, loose: set<nat>, pinned: set<nat>) {
    && Shape(s)
    && InRange(s)
    && Exclusive(s)
    && KernelHalf(s)
    && Exact(s, pinned)
    && FreeExact(s, loose)
  }

  /** The invariant between kernel operations. */
  ghost predicate Sound(s: Phys) {
    Inv(s, {}, {})
  }
}
