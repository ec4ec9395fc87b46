/** The fork library on the real kernel: its steps make page system calls through two levels of tables, its stores go to
    physical memory, and over every run the environments read what a fork that copies every page would give them. */
module KernelFork {
  import opened Mmu
  import opened Options
  import opened CowMemory
  import opened CowInvariant
  import opened FrameBytes
  import CR = CowRefinement
  import opened CowRuns
  import PT = PageTables
  import RC = RefCounts
  import SC = Syscalls
  import LT = Lifetime
  import DP = DataPages
  import PM = PageMaps
  import CH = CowHandler
  import LD = Loader

  /** Physical memory, each environment's directory, and where everyone stands. */
  datatype Host = Host(s: PT.Phys, dir: map<nat, nat>, ctl: map<nat, Control>)

  ghost predicate Linked(h: Host) {
    && PT.Sound(h.s) && h.dir.Keys == h.ctl.Keys
    && (forall e :: e in h.dir ==> h.dir[e] in h.s.dirs)
    && (forall e, e' :: e in h.dir && e' in h.dir && h.dir[e] == h.dir[e'] ==> e == e')
  }

  ghost function AllSlots(dir: map<nat, nat>): set<Slot> {
    set e: nat, pn: nat | e in dir && 0 <= pn < USER_PAGES :: Slot(e, pn)
  }

  /** What the page tables and the frames hold, as the memory that fork's steps work on. */
  ghost function View(h: Host): Users {
    Users(map k: Slot | k in AllSlots(h.dir) && PM.Seen(h.s, h.dir[k.env], k.pn).Some? :: PM.Seen(h.s, h.dir[k.env], k.pn).value,
          map f: nat | f < |h.s.mem| :: FrameAt(h.s, f), h.ctl)
  }

  /** Every page mapped in `u` holds what its frame of physical memory holds. */
  ghost predicate Backed(s: PT.Phys, u: Users) {
    forall k {:trigger k in u.pt} :: k in u.pt ==> FrameAt(s, u.pt[k].frame) == Content(u, u.pt[k].frame)
  }

  ghost predicate Shown(s: PT.Phys, dir: map<nat, nat>, u: Users) {
    PM.Shows(s, dir, u) && Backed(s, u)
  }

  /** `u` is what the kernel's memory shows. */
  ghost predicate Rep(h: Host, u: Users) {
    Linked(h) && Shown(h.s, h.dir, u) && u.ctl == h.ctl
  }

  lemma ViewShown(h: Host)
    requires Linked(h)
    ensures Rep(h, View(h))
  {
    hide PM.Seen, PT.Inv, FrameAt;
    forall k {:trigger k in View(h).pt} | k in View(h).pt
      ensures FrameAt(h.s, View(h).pt[k].frame) == Content(View(h), View(h).pt[k].frame)
    {
      ViewContent(h, View(h).pt[k].frame);
    }
  }

  lemma ViewContent(h: Host, f: nat)
    ensures Content(View(h), f) == FrameAt(h.s, f)
  {
    hide Bytes;
  }

  lemma ShownView(h: Host, u: Users)
    requires PM.Shows(h.s, h.dir, u)
    ensures View(h).pt == u.pt
  {
    hide PM.Seen;
    forall k ensures PM.At(View(h), k) == PM.At(u, k) {
      if k.env in h.dir && k.pn < USER_PAGES {
        PM.SeenAt(h.s, h.dir, u, k);
        assert k in AllSlots(h.dir);
      }
    }
    forall k ensures (k in View(h).pt <==> k in u.pt) && (k in u.pt ==> View(h).pt[k] == u.pt[k]) {
      assert PM.At(View(h), k) == PM.At(u, k);
    }
  }

  // ----- the system calls behind the steps -----

  /** The permissions of duppage's first sys_page_map, or None if fork skips the page. */
  function DupPerm(u: Users, k: Slot): Option<Flags> {
    if k !in u.pt || !User(u.pt[k]) then None
    else if Share(u.pt[k]) then Some(PTE_SYSCALL)
    else if Writable(u.pt[k]) || Cow(u.pt[k]) then Some(COW_PERM)
    else Some(READ_PERM)
  }

  function MapCall(s: PT.Phys, dir: map<nat, nat>, src: Slot, dst: Slot, perm: Flags): PT.Sys
    requires src.env in dir && dst.env in dir
  {
    PT.SysPageMap(s, dir[src.env], src.pn * PGSIZE, dir[dst.env], dst.pn * PGSIZE, Plain(perm))
  }

  /** sys_page_map does not run out of memory, and the page's count has room. */
  predicate MapServed(s: PT.Phys, dir: map<nat, nat>, src: Slot, dst: Slot, perm: Flags, s': PT.Phys) {
    && src.env in dir && dst.env in dir
    && var r := MapCall(s, dir, src, dst, perm);
       && r.code != PT.NoMem && s' == r.s
       && (r.code == PT.Ok ==> Fits(s, dir, src, dst, perm))
  }

  predicate Fits(s: PT.Phys, dir: map<nat, nat>, src: Slot, dst: Slot, perm: Flags)
    requires src.env in dir && dst.env in dir
  {
    var pg := PT.PageLookup(s, dir[src.env], src.pn);
    pg.Some? ==> RC.Fits(s, dir[dst.env], pg.value, dst.pn, Plain(perm))
  }

  predicate AllocServed(s: PT.Phys, dir: map<nat, nat>, k: Slot, f: nat, s': PT.Phys) {
    && k.env in dir && s.free != [] && f == s.free[0]
    && var r := PT.SysPageAlloc(s, dir[k.env], k.pn * PGSIZE, Plain(WRITE_PERM)); r.code == PT.Ok && s' == r.s
  }

  /** The bytes of user stores and copies go to the frame that the page table names, one at a time. */
  predicate CopyServed(s: PT.Phys, u: Users, e: nat, pn: nat, k: nat, s': PT.Phys) {
    if Slot(e, pn) in u.pt && Slot(e, TEMP) in u.pt && k < PGSIZE then
      s' == Poked(s, u.pt[Slot(e, TEMP)].frame, k, FrameAt(s, u.pt[Slot(e, pn)].frame)[k])
    else s' == s
  }

  /** A step of some environment, with what the kernel and the hardware do for it. Memory does not run out. */
  ghost predicate Step(h: Host, op: Op, h': Host) {
    Enabled(View(h), op) && h'.ctl == Apply(View(h), op).ctl && Served(h, View(h), op, h')
  }

  ghost predicate Served(h: Host, u: Users, op: Op, h': Host)
    requires Enabled(u, op)
  {
    match op
    case Write(e, pn, off, v) =>
      h'.dir == h.dir && h'.s == if off < PGSIZE then Poked(h.s, u.pt[Slot(e, pn)].frame, off, v) else h.s
    case TakeFrame(e, f) => h'.dir == h.dir && AllocServed(h.s, h.dir, Slot(e, TEMP), f, h'.s)
    case CopyByte(e) =>
      var fault := u.ctl[e].fault.value;
      h'.dir == h.dir && CopyServed(h.s, u, e, fault.pn, fault.stage.done, h'.s)
    case MoveFrame(e) =>
      h'.dir == h.dir && MapServed(h.s, h.dir, Slot(e, TEMP), Slot(e, u.ctl[e].fault.value.pn), WRITE_PERM, h'.s)
    case Leave(e) =>
      h'.dir == h.dir && e in h.dir && h'.s == PT.SysPageUnmap(h.s, h.dir[e], TEMP * PGSIZE).s
    case StartFork(e, c) =>
      var r := PT.EnvSetupVm(h.s);
      r.frame.Some? && h'.s == r.s && h'.dir == h.dir[c := r.frame.value]
    case Dup(e) =>
      var fork := u.ctl[e].fork.value;
      var perm := DupPerm(u, Slot(e, fork.next));
      && h'.dir == h.dir
      && if perm.None? then h'.s == h.s
         else MapServed(h.s, h.dir, Slot(e, fork.next), Slot(fork.child, fork.next), perm.value, h'.s)
    case DupAgain(e) =>
      var fork := u.ctl[e].fork.value;
      h'.dir == h.dir && MapServed(h.s, h.dir, Slot(e, fork.next), Slot(e, fork.next), COW_PERM, h'.s)
    case ChildStack(e, f) =>
      h'.dir == h.dir && AllocServed(h.s, h.dir, Slot(u.ctl[e].fork.value.child, UX_PAGE), f, h'.s)
    case Exit(e) => e in h.dir && h'.s == PT.EnvFree(h.s, h.dir[e]) && h'.dir == h.dir - {e}
    case _ => h'.s == h.s && h'.dir == h.dir
  }

  // ----- what they leave in the frames -----

  /** Where mapped frames keep their words, an operation that maps no new frame keeps all contents. */
  lemma StillBacked(s: PT.Phys, dir: map<nat, nat>, u: Users, s': PT.Phys, u': Users)
    requires Shown(s, dir, u) && DP.DataKept(s, s') && u'.mem == u.mem
    requires forall k {:trigger k in u'.pt} :: k in u'.pt ==> exists j :: j in u.pt && u.pt[j].frame == u'.pt[k].frame
    ensures Backed(s', u')
  {
    hide PM.Shows, DP.Data;
    forall k | k in u'.pt ensures FrameAt(s', u'.pt[k].frame) == Content(u', u'.pt[k].frame) {
      var j :| j in u.pt && u.pt[j].frame == u'.pt[k].frame;
      PM.MappedIsData(s, dir, u, j);
    }
  }

  /** A new frame that is zero holds what SysAlloc says. */
  lemma NewBacked(s: PT.Phys, dir: map<nat, nat>, u: Users, s': PT.Phys, k: Slot, f: nat, perm: Flags)
    requires Shown(s, dir, u) && DP.DataKept(s, s') && Fresh(u, f) && DP.Blank(s', f)
    ensures Backed(s', SysAlloc(u, k, f, perm))
  {
    hide PM.Shows, DP.Data;
    var u' := SysAlloc(u, k, f, perm);
    BlankReads(s', f);
    forall j | j in u'.pt ensures FrameAt(s', u'.pt[j].frame) == Content(u', u'.pt[j].frame) {
      if j != k {
        PM.MappedIsData(s, dir, u, j);
      }
    }
  }

  lemma BlankReads(s: PT.Phys, f: nat)
    requires DP.Blank(s, f)
    ensures FrameAt(s, f) == ZeroFrame()
  {
    assert forall i: nat :: WordAt(s.mem[f], i) == PT.Word(s, f, i);
    assert forall j: nat :: ByteOf(ABSENT, j) == 0;
  }

  /** A store to a mapped frame. */
  lemma StoreShown(s: PT.Phys, dir: map<nat, nat>, u: Users, k: Slot, off: nat, v: Byte)
    requires PT.Sound(s) && Shown(s, dir, u) && k in u.pt && off < PGSIZE
    ensures var f := u.pt[k].frame; var s' := Poked(s, f, off, v);
      PT.Sound(s') && s'.dirs == s.dirs && Shown(s', dir, u.(mem := u.mem[f := Poke(Content(u, f), off, v)]))
  {
    var f := u.pt[k].frame;
    var s', u' := Poked(s, f, off, v), u.(mem := u.mem[f := Poke(Content(u, f), off, v)]);
    PM.StoreShows(s, dir, u, k, off, v);
    PokedBytes(s, f, off, v);
    PM.ContentAside(s', dir, u, u');
    hide FrameAt, Poked, PT.Inv, PM.Shows;
  }

  lemma MapShown(s: PT.Phys, dir: map<nat, nat>, u: Users, src: Slot, dst: Slot, perm: Flags, s': PT.Phys)
    requires PT.Sound(s) && Shown(s, dir, u) && src.pn < USER_PAGES && dst.pn < USER_PAGES
    requires MapServed(s, dir, src, dst, perm, s')
    ensures PT.Sound(s') && Shown(s', dir, Mapped(u, src, dst, perm)) && s'.dirs == s.dirs
  {
    MappedFrames(u, src, dst, perm);
    hide PT.Inv, PM.Shows, PT.SysPageMap, RC.Fits, PT.PageLookup, PM.Seen, SysMap, Mapped, Backed, DP.DataKept;
    MapKept(s, dir, u, src, dst, perm);
    PM.MapShows(s, dir, u, src, dst, Plain(perm));
    MappedIs(u, src, dst, perm);
    StillBacked(s, dir, u, s', Mapped(u, src, dst, perm));
  }

  lemma MappedIs(u: Users, src: Slot, dst: Slot, perm: Flags)
    ensures Mapped(u, src, dst, perm) == var r := SysMap(u, src, dst, perm); if r.Some? then r.value else u
  {
  }

  /** sys_page_map takes no new frame. */
  lemma MappedFrames(u: Users, src: Slot, dst: Slot, perm: Flags)
    ensures var u' := Mapped(u, src, dst, perm);
      u'.mem == u.mem && forall k {:trigger k in u'.pt} :: k in u'.pt ==> exists j :: j in u.pt && u.pt[j].frame == u'.pt[k].frame
  {
  }

  lemma MapKept(s: PT.Phys, dir: map<nat, nat>, u: Users, src: Slot, dst: Slot, perm: Flags)
    requires PT.Sound(s) && PM.Shows(s, dir, u) && src.pn < USER_PAGES && dst.pn < USER_PAGES
    requires src.env in dir && dst.env in dir
    ensures var r := MapCall(s, dir, src, dst, perm);
      (r.code != PT.Ok || Fits(s, dir, src, dst, perm) ==> PT.Sound(r.s)) && r.s.dirs == s.dirs && DP.DataKept(s, r.s)
  {
    hide PT.Inv, PM.Shows, PT.SysPageMap, RC.Fits, PT.PageLookup, PM.Seen, DP.DataKept;
    PM.PageOfAddress(src.pn);
    PM.PageOfAddress(dst.pn);
    PM.SeenAt(s, dir, u, src);
    PM.SeenAt(s, dir, u, dst);
    SC.SysPageMapKeeps(s, dir[src.env], src.pn * PGSIZE, dir[dst.env], dst.pn * PGSIZE, Plain(perm));
  }

  lemma AllocShown(s: PT.Phys, dir: map<nat, nat>, u: Users, k: Slot, f: nat, s': PT.Phys)
    requires PT.Sound(s) && Shown(s, dir, u) && k.pn < USER_PAGES && AllocServed(s, dir, k, f, s')
    ensures PT.Sound(s') && Shown(s', dir, SysAlloc(u, k, f, WRITE_PERM)) && s'.dirs == s.dirs
  {
    PM.PageOfAddress(k.pn);
    PM.SeenAt(s, dir, u, k);
    hide PT.Inv, PM.Shows, PT.SysPageAlloc, DP.DataKept, DP.Blank, Fresh, Backed;
    PM.AllocShows(s, dir, u, k, Plain(WRITE_PERM));
    SC.SysPageAllocKeeps(s, dir[k.env], k.pn * PGSIZE, Plain(WRITE_PERM));
    NewBacked(s, dir, u, s', k, f, WRITE_PERM);
  }

  lemma CopyShown(s: PT.Phys, dir: map<nat, nat>, u: Users, e: nat, pn: nat, k: nat, s': PT.Phys)
    requires PT.Sound(s) && Shown(s, dir, u) && CopyServed(s, u, e, pn, k, s')
    ensures PT.Sound(s') && Shown(s', dir, Copied(u, e, pn, k)) && s'.dirs == s.dirs
  {
    if Slot(e, pn) in u.pt && Slot(e, TEMP) in u.pt && k < PGSIZE {
      assert FrameAt(s, u.pt[Slot(e, pn)].frame) == Content(u, u.pt[Slot(e, pn)].frame);
      hide PT.Inv, Shown, FrameAt;
      StoreShown(s, dir, u, Slot(e, TEMP), k, Content(u, u.pt[Slot(e, pn)].frame)[k]);
    }
  }

  lemma WriteShown(s: PT.Phys, dir: map<nat, nat>, u: Users, k: Slot, off: nat, v: Byte, s': PT.Phys)
    requires PT.Sound(s) && Shown(s, dir, u) && k in u.pt && s' == if off < PGSIZE then Poked(s, u.pt[k].frame, off, v) else s
    ensures var f := u.pt[k].frame;
      PT.Sound(s') && Shown(s', dir, u.(mem := u.mem[f := Poke(Content(u, f), off, v)])) && s'.dirs == s.dirs
  {
    if off < PGSIZE {
      hide PT.Inv, Shown, FrameAt;
      StoreShown(s, dir, u, k, off, v);
    } else {
      PM.ContentAside(s, dir, u, u.(mem := u.mem[u.pt[k].frame := Content(u, u.pt[k].frame)]));
      hide PT.Inv, FrameAt, PM.Shows;
    }
  }

  lemma UnmapShown(s: PT.Phys, dir: map<nat, nat>, u: Users, e: nat)
    requires PT.Sound(s) && Shown(s, dir, u) && e in dir
    ensures var s' := PT.SysPageUnmap(s, dir[e], TEMP * PGSIZE).s;
      PT.Sound(s') && Shown(s', dir, SysUnmap(u, Slot(e, TEMP))) && s'.dirs == s.dirs
  {
    PM.SeenAt(s, dir, u, Slot(e, TEMP));
    hide PT.Inv, PM.Shows, DP.DataKept, Backed, PT.SysPageUnmap;
    SC.SysPageUnmapKeeps(s, dir[e], TEMP * PGSIZE);
    PM.UnmapShows(s, dir, u, Slot(e, TEMP));
    StillBacked(s, dir, u, PT.SysPageUnmap(s, dir[e], TEMP * PGSIZE).s, SysUnmap(u, Slot(e, TEMP)));
  }

  // ----- one step -----

  lemma StillLinked(h: Host, h': Host)
    requires Linked(h) && PT.Sound(h'.s) && h'.dir == h.dir && h'.s.dirs == h.s.dirs && h'.ctl.Keys == h.ctl.Keys
    ensures Linked(h')
  {
    hide PT.Inv;
  }

  lemma SameMap(s: PT.Phys, dir: map<nat, nat>, u: Users, u': Users)
    requires Shown(s, dir, u) && u'.pt == u.pt && u'.mem == u.mem
    ensures Shown(s, dir, u')
  {
    PM.ContentAside(s, dir, u, u');
    hide PM.Shows, FrameAt;
  }

  /** What a step does to the map and to contents, everybody's progress aside. */
  function Effect(u: Users, op: Op): Users
    requires Enabled(u, op)
  {
    match op
    case Write(e, pn, off, v) =>
      var f := u.pt[Slot(e, pn)].frame;
      u.(mem := u.mem[f := Poke(Content(u, f), off, v)])
    case TakeFrame(e, f) => SysAlloc(u, Slot(e, TEMP), f, WRITE_PERM)
    case CopyByte(e) => Copied(u, e, u.ctl[e].fault.value.pn, u.ctl[e].fault.value.stage.done)
    case MoveFrame(e) => Mapped(u, Slot(e, TEMP), Slot(e, u.ctl[e].fault.value.pn), WRITE_PERM)
    case Leave(e) => SysUnmap(u, Slot(e, TEMP))
    case Dup(e) =>
      var fork := u.ctl[e].fork.value;
      var perm := DupPerm(u, Slot(e, fork.next));
      if perm.None? then u else Mapped(u, Slot(e, fork.next), Slot(fork.child, fork.next), perm.value)
    case DupAgain(e) =>
      var fork := u.ctl[e].fork.value;
      Mapped(u, Slot(e, fork.next), Slot(e, fork.next), COW_PERM)
    case ChildStack(e, f) => SysAlloc(u, Slot(u.ctl[e].fork.value.child, UX_PAGE), f, WRITE_PERM)
    case Exit(e) => PM.Without(u, e)
    case _ => u
  }

  lemma EffectIs(u: Users, op: Op)
    requires Enabled(u, op) && Standing(u, op.e)
    ensures Apply(u, op).pt == Effect(u, op).pt && Apply(u, op).mem == Effect(u, op).mem
    ensures op.e in u.ctl
  {
    hide Fresh, Has, FaultState, ForkState, ChildState, SysMap, DupPerm;
    if op.Dup? {
      DupCall(u, op.e, u.ctl[op.e].fork.value);
      hide DupFirst, Mapped;
    } else {
      hide Mapped, Copied, DupFirst;
    }
  }

  lemma KeysAre(u: Users, op: Op)
    requires Enabled(u, op)
    ensures Apply(u, op).ctl.Keys ==
      if op.Exit? then u.ctl.Keys - {op.e} else if op.StartFork? then u.ctl.Keys + {op.c} else u.ctl.Keys
  {
    CallsAside(u);
    hide Fresh, Has, Mapped, Copied;
    if op.Exit? {
      assert Apply(u, op).ctl.Keys == u.ctl.Keys - {op.e};
    } else if op.StartFork? {
      assert Apply(u, op).ctl.Keys == u.ctl.Keys + {op.c};
    } else {
      assert forall a :: a in Apply(u, op).ctl <==> a in u.ctl;
    }
  }

  /** fork's first call for a page is what DupPerm says. */
  lemma DupCall(u: Users, e: nat, fork: Fork)
    ensures var src, dst := Slot(e, fork.next), Slot(fork.child, fork.next); var perm := DupPerm(u, src);
      var u' := if perm.None? then u else Mapped(u, src, dst, perm.value);
      DupFirst(u, e, fork).pt == u'.pt && DupFirst(u, e, fork).mem == u'.mem && DupFirst(u, e, fork).ctl.Keys == u.ctl.Keys
  {
  }

  /** The environments that a step names are there, and its pages are user pages. */
  lemma StepNames(u: Users, op: Op)
    requires Enabled(u, op) && Standing(u, op.e)
    ensures op.e in u.ctl
    ensures op.MoveFrame? ==> u.ctl[op.e].fault.value.pn < USER_PAGES
    ensures op.Dup? || op.DupAgain? ==> u.ctl[op.e].fork.value.next < USER_PAGES
    ensures op.Dup? || op.DupAgain? || op.ChildStack? ==> u.ctl[op.e].fork.value.child in u.ctl
  {
    hide Fresh, Has;
  }

  /** A step of pgfault or duppage, or a store, keeps every environment's directory. */
  lemma CallFollows(h: Host, u: Users, op: Op, h': Host)
    requires Rep(h, u) && Enabled(u, op) && Standing(u, op.e) && Served(h, u, op, h')
    requires !op.StartFork? && !op.Exit?
    ensures PT.Sound(h'.s) && h'.s.dirs == h.s.dirs && h'.dir == h.dir && Shown(h'.s, h.dir, Effect(u, op))
  {
    hide Shown, MapServed, AllocServed, CopyServed, PT.SysPageUnmap, Poked, PT.Inv;
    hide Standing, Mapped, SysAlloc, SysUnmap, Copied, Fresh, Has, DupPerm;
    StepNames(u, op);
    match op {
      case Write(e, pn, off, v) => WriteShown(h.s, h.dir, u, Slot(e, pn), off, v, h'.s);
      case TakeFrame(e, f) => AllocShown(h.s, h.dir, u, Slot(e, TEMP), f, h'.s);
      case CopyByte(e) => CopyShown(h.s, h.dir, u, e, u.ctl[e].fault.value.pn, u.ctl[e].fault.value.stage.done, h'.s);
      case MoveFrame(e) => MapShown(h.s, h.dir, u, Slot(e, TEMP), Slot(e, u.ctl[e].fault.value.pn), WRITE_PERM, h'.s);
      case Leave(e) => UnmapShown(h.s, h.dir, u, e);
      case Dup(e) =>
        var fork := u.ctl[e].fork.value;
        var perm := DupPerm(u, Slot(e, fork.next));
        if perm.Some? {
          MapShown(h.s, h.dir, u, Slot(e, fork.next), Slot(fork.child, fork.next), perm.value, h'.s);
        }
      case DupAgain(e) =>
        var fork := u.ctl[e].fork.value;
        MapShown(h.s, h.dir, u, Slot(e, fork.next), Slot(e, fork.next), COW_PERM, h'.s);
      case ChildStack(e, f) => AllocShown(h.s, h.dir, u, Slot(u.ctl[e].fork.value.child, UX_PAGE), f, h'.s);
      case _ =>
    }
  }

  lemma StartShown(s: PT.Phys, dir: map<nat, nat>, u: Users, c: nat)
    requires PT.Sound(s) && Shown(s, dir, u) && c !in dir && PT.EnvSetupVm(s).frame.Some?
    ensures var s', d := PT.EnvSetupVm(s).s, PT.EnvSetupVm(s).frame.value;
      PT.Sound(s') && d !in s.dirs && s'.dirs == s.dirs + {d} && Shown(s', dir[c := d], u)
  {
    LT.SetupKeeps(s);
    DP.SetupKeepsData(s);
    PM.SetupShows(s, dir, u, c);
    hide PT.Inv, PT.EnvSetupVm, PM.Shows, Backed, DP.DataKept;
    StillBacked(s, dir, u, PT.EnvSetupVm(s).s, u);
  }

  lemma ExitShown(s: PT.Phys, dir: map<nat, nat>, u: Users, e: nat)
    requires PT.Sound(s) && Shown(s, dir, u) && e in dir && dir[e] in s.dirs
    ensures var s' := PT.EnvFree(s, dir[e]);
      PT.Sound(s') && s'.dirs == s.dirs - {dir[e]} && Shown(s', dir - {e}, PM.Without(u, e))
  {
    LT.EnvFreeKeeps(s, dir[e]);
    DP.FreeKeepsData(s, dir[e]);
    PM.FreeShows(s, dir, u, e);
    hide PT.Inv, PT.EnvFree, PM.Shows, Backed, DP.DataKept;
    StillBacked(s, dir, u, PT.EnvFree(s, dir[e]), PM.Without(u, e));
  }

  /** What a step of the library does to page tables and physical memory is what it does on the plain map. */
  lemma ServedShows(h: Host, u: Users, op: Op, h': Host)
    requires Rep(h, u) && Enabled(u, op) && Standing(u, op.e) && h'.ctl == Apply(u, op).ctl && Served(h, u, op, h')
    ensures Rep(h', Apply(u, op))
  {
    hide Shown, Standing, Apply, Enabled, PT.Inv, PT.EnvSetupVm, PT.EnvFree;
    EffectIs(u, op);
    KeysAre(u, op);
    if op.StartFork? {
      NewChild(u, op);
      StartShown(h.s, h.dir, u, op.c);
    } else if op.Exit? {
      ExitShown(h.s, h.dir, u, op.e);
    } else {
      CallFollows(h, u, op, h');
      StillLinked(h, h');
    }
    SameMap(h'.s, h'.dir, Effect(u, op), Apply(u, op));
  }

  lemma NewChild(u: Users, op: Op)
    requires Enabled(u, op) && op.StartFork?
    ensures op.c !in u.ctl
  {
  }

  // ----- what a step does depends on the map, not on how it is known -----

  lemma SameStep(u: Users, v: Users, op: Op)
    requires v.pt == u.pt && v.ctl == u.ctl
    ensures Enabled(v, op) <==> Enabled(u, op)
    ensures Enabled(u, op) ==> Apply(v, op).ctl == Apply(u, op).ctl
  {
    CallsAside(u);
    CallsAside(v);
    hide Has, CowOnly, Copied, Mapped;
  }

  lemma SameServed(h: Host, u: Users, v: Users, op: Op, h': Host)
    requires v.pt == u.pt && v.ctl == u.ctl && Enabled(u, op) && Enabled(v, op) && Served(h, v, op, h')
    ensures Served(h, u, op, h')
  {
    assert forall k :: DupPerm(v, k) == DupPerm(u, k);
    hide Fresh, Has, DupPerm, PT.EnvSetupVm, PT.SysPageUnmap, PT.EnvFree, Poked, MapServed, AllocServed, FrameAt;
  }

  lemma StepAs(h: Host, u: Users, op: Op, h': Host)
    requires Rep(h, u) && Step(h, op, h')
    ensures Enabled(u, op) && h'.ctl == Apply(u, op).ctl && Served(h, u, op, h')
  {
    ShownView(h, u);
    ViewControl(h);
    SameStep(u, View(h), op);
    SameServed(h, u, View(h), op, h');
    hide View, Enabled, Apply, Served, PM.Shows, Backed, Linked;
  }

  lemma ViewControl(h: Host)
    ensures View(h).ctl == h.ctl
  {
  }

  /** One step of the library through the kernel is one step on the plain map, from whatever map shows the memory. */
  lemma StepShows(h: Host, u: Users, op: Op, h': Host)
    requires Rep(h, u) && Inv(u) && Step(h, op, h')
    ensures Enabled(u, op) && Rep(h', Apply(u, op)) && Inv(Apply(u, op))
  {
    StepAs(h, u, op, h');
    OpStands(u, op);
    ServedShows(h, u, op, h');
    StepKeeps(u, op);
    hide *;
  }

  lemma OpStands(u: Users, op: Op)
    requires Inv(u) && Enabled(u, op)
    ensures Standing(u, op.e)
  {
  }

  // ----- no step is out of reach -----

  /** Two free frames, and room in every count. */
  predicate Spare(s: PT.Phys) {
    |s.free| >= 2 && forall p :: 0 <= p < |s.refs| ==> s.refs[p] + 1 < PT.REF_LIMIT
  }

  lemma MapCanServe(s: PT.Phys, dir: map<nat, nat>, u: Users, src: Slot, dst: Slot, perm: Flags)
    requires PT.Sound(s) && PM.Shows(s, dir, u) && Spare(s) && src.env in dir && dst.env in dir && src.pn < USER_PAGES
    ensures MapServed(s, dir, src, dst, perm, MapCall(s, dir, src, dst, perm).s)
  {
    SC.SysPageMapCodes(s, dir[src.env], src.pn * PGSIZE, dir[dst.env], dst.pn * PGSIZE, Plain(perm));
    PM.SeenAt(s, dir, u, src);
    PM.PageOfAddress(src.pn);
    if PT.PageLookup(s, dir[src.env], src.pn).Some? {
      LookedUpFits(s, dir[src.env], src.pn, dir[dst.env], dst.pn, perm);
    }
    hide PT.Inv, PM.Shows, PT.SysPageMap, PT.PageLookup, PM.Seen, RC.Fits;
  }

  lemma LookedUpFits(s: PT.Phys, sd: nat, spn: nat, dd: nat, dpn: nat, perm: Flags)
    requires PT.Sound(s) && Spare(s) && sd in s.dirs && spn < USER_PAGES && PT.PageLookup(s, sd, spn).Some?
    ensures RC.Fits(s, dd, PT.PageLookup(s, sd, spn).value, dpn, Plain(perm))
  {
    SC.LookupInRange(s, sd, spn);
    hide PT.PageLookup;
  }

  lemma AllocCanServe(s: PT.Phys, dir: map<nat, nat>, u: Users, k: Slot)
    requires PT.Sound(s) && PM.Shows(s, dir, u) && Spare(s) && k.env in dir && k.pn < USER_PAGES
    ensures AllocServed(s, dir, k, s.free[0], PT.SysPageAlloc(s, dir[k.env], k.pn * PGSIZE, Plain(WRITE_PERM)).s)
  {
    PM.SeenAt(s, dir, u, k);
    PM.PageOfAddress(k.pn);
    Layout();
    hide PT.Inv, PM.Shows, PT.SysPageAlloc, PM.Seen;
    SC.SysPageAllocCodes(s, dir[k.env], k.pn * PGSIZE, Plain(WRITE_PERM));
  }

  /** sys_page_map serves pgfault and duppage. */
  lemma CanMap(h: Host, u: Users, op: Op) returns (s': PT.Phys)
    requires Rep(h, u) && Spare(h.s) && Enabled(u, op) && Standing(u, op.e) && (op.MoveFrame? || op.Dup? || op.DupAgain?)
    ensures Served(h, u, op, Host(s', h.dir, Apply(u, op).ctl))
  {
    StepNames(u, op);
    hide PM.Shows, Backed, Spare, MapServed, MapCall, Standing, Apply, PT.Inv, DupPerm;
    match op {
      case MoveFrame(e) =>
        var src, dst := Slot(e, TEMP), Slot(e, u.ctl[e].fault.value.pn);
        MapCanServe(h.s, h.dir, u, src, dst, WRITE_PERM);
        s' := MapCall(h.s, h.dir, src, dst, WRITE_PERM).s;
      case Dup(e) =>
        var fork := u.ctl[e].fork.value;
        var src, dst := Slot(e, fork.next), Slot(fork.child, fork.next);
        var perm := DupPerm(u, src);
        s' := h.s;
        if perm.Some? {
          MapCanServe(h.s, h.dir, u, src, dst, perm.value);
          s' := MapCall(h.s, h.dir, src, dst, perm.value).s;
        }
      case DupAgain(e) =>
        var mine := Slot(e, u.ctl[e].fork.value.next);
        MapCanServe(h.s, h.dir, u, mine, mine, COW_PERM);
        s' := MapCall(h.s, h.dir, mine, mine, COW_PERM).s;
    }
  }

  /** sys_page_alloc serves pgfault and fork, with the first free frame. */
  lemma CanAlloc(h: Host, u: Users, op: Op) returns (s': PT.Phys)
    requires Rep(h, u) && Spare(h.s) && Enabled(u, op) && Standing(u, op.e) && (op.TakeFrame? || op.ChildStack?)
    requires op.f == h.s.free[0]
    ensures Served(h, u, op, Host(s', h.dir, Apply(u, op).ctl))
  {
    StepNames(u, op);
    hide PM.Shows, Backed, AllocServed, Standing, Apply, PT.Inv, PT.SysPageAlloc, Fresh;
    var k := if op.TakeFrame? then Slot(op.e, TEMP) else Slot(u.ctl[op.e].fork.value.child, UX_PAGE);
    AllocCanServe(h.s, h.dir, u, k);
    s' := PT.SysPageAlloc(h.s, h.dir[k.env], k.pn * PGSIZE, Plain(WRITE_PERM)).s;
  }

  /** Stores, copied bytes and the steps without a system call need no frame. */
  lemma CanStore(h: Host, u: Users, op: Op) returns (s': PT.Phys)
    requires Rep(h, u) && Enabled(u, op) && Standing(u, op.e) && (op.Write? || op.CopyByte? || op.Enter? || op.EndFork?)
    ensures Served(h, u, op, Host(s', h.dir, Apply(u, op).ctl))
  {
    hide Rep, Standing, Apply, Fresh, Has, Poked, FrameAt;
    s' := h.s;
    match op {
      case Write(e, pn, off, v) => s' := if off < PGSIZE then Poked(h.s, u.pt[Slot(e, pn)].frame, off, v) else h.s;
      case CopyByte(e) =>
        var pn, k := u.ctl[e].fault.value.pn, u.ctl[e].fault.value.stage.done;
        if Slot(e, pn) in u.pt && Slot(e, TEMP) in u.pt {
          s' := Poked(h.s, u.pt[Slot(e, TEMP)].frame, k, FrameAt(h.s, u.pt[Slot(e, pn)].frame)[k]);
        }
      case _ =>
    }
  }

  /** The other steps need no frame but a new environment's directory. */
  lemma CanDo(h: Host, u: Users, op: Op) returns (s': PT.Phys, dir': map<nat, nat>)
    requires Rep(h, u) && Spare(h.s) && Enabled(u, op) && Standing(u, op.e) && (op.Leave? || op.StartFork? || op.Exit?)
    ensures Served(h, u, op, Host(s', dir', Apply(u, op).ctl))
  {
    hide Rep, Spare, Standing, Apply, PT.EnvSetupVm, PT.EnvFree, PT.SysPageUnmap, Enabled;
    RepNames(h, u, op);
    SetupWorks(h.s);
    match op {
      case Leave(e) => s', dir' := PT.SysPageUnmap(h.s, h.dir[e], TEMP * PGSIZE).s, h.dir;
      case StartFork(e, c) => s', dir' := PT.EnvSetupVm(h.s).s, h.dir[c := PT.EnvSetupVm(h.s).frame.value];
      case Exit(e) => s', dir' := PT.EnvFree(h.s, h.dir[e]), h.dir - {e};
    }
  }

  lemma SetupWorks(s: PT.Phys)
    requires Spare(s)
    ensures PT.EnvSetupVm(s).frame.Some?
  {
  }

  lemma RepNames(h: Host, u: Users, op: Op)
    requires Rep(h, u) && Enabled(u, op) && Standing(u, op.e)
    ensures op.e in h.dir
  {
    hide PT.Inv, Shown;
    StepNames(u, op);
  }

  /** Where memory does not run out and counts have room, the kernel can take every step that the fork machine allows. */
  lemma StepExists(h: Host, op: Op)
    requires Linked(h) && Inv(View(h)) && Enabled(View(h), op) && Spare(h.s)
    requires op.TakeFrame? || op.ChildStack? ==> op.f == h.s.free[0]
    ensures exists h' :: Step(h, op, h')
  {
    var u := View(h);
    ViewShown(h);
    OpStands(u, op);
    hide Served, Inv, View, Apply, Enabled, Linked, Spare, Rep, Standing;
    var s', dir' := h.s, h.dir;
    if op.MoveFrame? || op.Dup? || op.DupAgain? {
      s' := CanMap(h, u, op);
    } else if op.TakeFrame? || op.ChildStack? {
      s' := CanAlloc(h, u, op);
    } else if op.Leave? || op.StartFork? || op.Exit? {
      s', dir' := CanDo(h, u, op);
    } else {
      s' := CanStore(h, u, op);
    }
    assert Step(h, op, Host(s', dir', Apply(u, op).ctl));
  }

  // ----- runs -----

  ghost predicate HostRun(hs: seq<Host>, ops: seq<Op>) {
    |hs| == |ops| + 1 && forall k :: 0 <= k < |ops| ==> Step(hs[k], ops[k], hs[k + 1])
  }

  /** The fork machine's own run of `ops` from `u`; a step that it does not allow changes nothing. */
  ghost function Plays(u: Users, ops: seq<Op>): (us: seq<Users>)
    ensures |us| == |ops| + 1 && us[0] == u
  {
    if ops == [] then [u]
    else
      var n := |ops| - 1;
      var us := Plays(u, ops[..n]);
      us + [if Enabled(us[n], ops[n]) then Apply(us[n], ops[n]) else us[n]]
  }

  /** Every run on the kernel is a run of the fork machine: at every step, page tables and physical memory show its map and
      its contents. */
  lemma {:induction false} RunShows(hs: seq<Host>, ops: seq<Op>)
    requires HostRun(hs, ops) && Linked(hs[0]) && Inv(View(hs[0]))
    ensures Run(Plays(View(hs[0]), ops), ops)
    ensures forall k :: 0 <= k < |hs| ==> Rep(hs[k], Plays(View(hs[0]), ops)[k]) && Inv(Plays(View(hs[0]), ops)[k])
  {
    hide Linked, Inv, View, Step, Enabled, Apply, Rep;
    var us := Plays(View(hs[0]), ops);
    if ops == [] {
      ViewShown(hs[0]);
    } else {
      var n := |ops| - 1;
      var vs := Plays(View(hs[0]), ops[..n]);
      RunShows(hs[..n + 1], ops[..n]);
      assert hs[..n + 1][n] == hs[n] && forall k :: 0 <= k <= n ==> us[k] == vs[k];
      StepShows(hs[n], us[n], ops[n], hs[n + 1]);
      forall k | 0 <= k < |hs| ensures Rep(hs[k], us[k]) && Inv(us[k]) {
        if k <= n {
          assert hs[..n + 1][k] == hs[k];
        }
      }
      forall k | 0 <= k < |ops| ensures Enabled(us[k], ops[k]) && us[k + 1] == Apply(us[k], ops[k]) {
        if k < n {
          assert ops[..n][k] == ops[k];
        }
      }
    }
  }

  /** The bytes that environment `e` reads in page `pn`: through its page tables, from physical memory. */
  ghost function HostReads(h: Host, e: nat, pn: nat): Option<Page> {
    if e !in h.dir then None
    else
      var entry := PM.Seen(h.s, h.dir[e], pn);
      if entry.None? then None else Some(FrameAt(h.s, entry.value.frame))
  }

  /** From the fork library down to page tables, reference counts and physical memory: over every run, with system calls,
      faults and stores of any number of environments in any order, every running environment reads in every user page what
      the machine that copies all pages on fork has there; and all counts, tables and free pages are exact at every step. */
  lemma HostRefines(hs: seq<Host>, ops: seq<Op>, m: CR.Model)
    requires HostRun(hs, ops) && Linked(hs[0]) && Inv(View(hs[0])) && CR.Agree(View(hs[0]), m)
    ensures forall k :: 0 <= k < |hs| ==> PT.Sound(hs[k].s)
    ensures Run(Plays(View(hs[0]), ops), ops)
    ensures var h, m' := hs[|ops|], Replay(Plays(View(hs[0]), ops), ops, m);
      forall e, pn: nat :: e in h.ctl && h.ctl[e].parent.None? && pn < USER_PAGES && pn != TEMP ==>
        HostReads(h, e, pn) == ModelReads(m', e, pn)
  {
    var us := Plays(View(hs[0]), ops);
    RunShows(hs, ops);
    forall k | 0 <= k < |hs| ensures PT.Sound(hs[k].s) {
      RepSound(hs[k], us[k]);
    }
    hide Rep, Linked, Inv, View, CR.Agree, Enabled, Apply, Step, PT.Inv, ModelReads, Replay, Plays, HostReads, Reads, Runs;
    RunRefines(us, ops, m);
    var h := hs[|ops|];
    forall e, pn: nat | e in h.ctl && h.ctl[e].parent.None? && pn < USER_PAGES && pn != TEMP
      ensures HostReads(h, e, pn) == ModelReads(Replay(us, ops, m), e, pn)
    {
      SameReads(h, us[|ops|], e, pn);
    }
  }

  lemma RepSound(h: Host, u: Users)
    requires Rep(h, u)
    ensures PT.Sound(h.s)
  {
  }

  lemma SameReads(h: Host, u: Users, e: nat, pn: nat)
    requires Rep(h, u) && e in h.ctl && h.ctl[e].parent.None? && pn < USER_PAGES
    ensures Runs(u, e) && HostReads(h, e, pn) == Reads(u, e, pn)
  {
    hide PM.Seen, FrameAt, PT.Inv;
    PM.SeenAt(h.s, h.dir, u, Slot(e, pn));
  }

  /** Where such runs may begin: one environment as load_icode leaves it, with no page at PFTEMP. It reads the bytes that
      were loaded. */
  lemma LoadedStart(h: Host, u: Users, e: nat)
    requires LD.Stands(h.s, h.dir, u, e) && h.dir.Keys == h.ctl.Keys == {e} && h.ctl[e] == Control(None, None, None)
    requires forall k :: k in u.pt ==> Owned(u.pt[k]) && k.pn != TEMP
    ensures Linked(h) && Inv(View(h)) && View(h).pt == u.pt
    ensures forall a: nat :: LD.Mapped(u, e, a) ==>
      HostReads(h, e, a / 4096).Some? && HostReads(h, e, a / 4096).value[a % 4096] == LD.ByteAt(h.s, u, e, a)
  {
    hide View, PT.Sound, PM.Seen, PM.Shows, Inv, LD.Own, Linked, Owned, FrameAt;
    ShownView(h, u);
    ViewControl(h);
    PM.SeenAt(h.s, h.dir, u, Slot(e, 0));
    LoneLinked(h, e);
    LoneEnvironment(h.s, h.dir, u, View(h), e);
    forall a: nat | LD.Mapped(u, e, a)
      ensures HostReads(h, e, a / 4096) == Some(FrameAt(h.s, u.pt[Slot(e, a / 4096)].frame))
    {
      PageBelow(h.s, h.dir, u, Slot(e, a / 4096));
      PM.SeenAt(h.s, h.dir, u, Slot(e, a / 4096));
    }
  }

  lemma PageBelow(s: PT.Phys, dir: map<nat, nat>, u: Users, k: Slot)
    requires PM.Shows(s, dir, u) && k in u.pt
    ensures k.env in dir && k.pn < USER_PAGES
  {
  }

  lemma LoneLinked(h: Host, e: nat)
    requires PT.Sound(h.s) && h.dir.Keys == h.ctl.Keys == {e} && h.dir[e] in h.s.dirs
    ensures Linked(h)
  {
    hide PT.Inv;
  }

  lemma LoneEnvironment(s: PT.Phys, dir: map<nat, nat>, u: Users, v: Users, e: nat)
    requires PM.Shows(s, dir, u) && dir.Keys == {e} && LD.Own(u, e)
    requires forall k :: k in u.pt ==> Owned(u.pt[k]) && k.pn != TEMP
    requires v.pt == u.pt && v.ctl.Keys == {e} && v.ctl[e] == Control(None, None, None)
    ensures Inv(v)
  {
    hide PM.Seen, Inv;
    forall k, k' {:trigger k in v.pt, k' in v.pt} | SameFrame(v, k, k') ensures k == k' {
      assert k in u.pt && k' in u.pt && k.env == e;
    }
    CH.PrivateStart(v);
  }
}
