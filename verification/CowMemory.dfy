/** lib/fork.c as steps: user environments, the pages they map, and copy-on-write fork and fault handling,
    one system call, copied byte or memory access at a time, in any interleaving. */
module CowMemory {
  import opened Mmu
  import opened Options

  type Byte = x: nat | x < 256
  type Page = p: seq<Byte> | |p| == PGSIZE witness seq(PGSIZE, i => 0)

  /** One page of one environment's address space, by page number. */
  datatype Slot = Slot(env: nat, pn: nat)

  /** The pages of PFTEMP and of the user exception stack; fork visits the pages below USTACKTOP. */
  const TEMP: nat := 2047
  const STACK_PAGES: nat := USER_PAGES - 2
  const UX_PAGE: nat := USER_PAGES - 1

  lemma UserLayout()
    ensures TEMP * PGSIZE == PFTEMP && STACK_PAGES * PGSIZE == USTACKTOP && (UX_PAGE + 1) * PGSIZE == UTOP
  {
    Layout();
  }

  /** How far pgfault has come, how far fork has come, and who is still building this environment.
      `half` is set between duppage's two sys_page_map calls: was the parent's page writable at the first? */
  datatype Stage = Entered | Copying(done: nat) | Moved
  datatype Fault = Fault(pn: nat, stage: Stage)
  datatype Fork = Fork(child: nat, next: nat, half: Option<bool>)
  datatype Control = Control(parent: Option<nat>, fork: Option<Fork>, fault: Option<Fault>)

  /** `pt` holds the present entries below UTOP, `mem` the contents of frames. */
  datatype Users = Users(pt: map<Slot, Entry>, mem: map<nat, Page>, ctl: map<nat, Control>)

  function ZeroFrame(): Page {
    seq(PGSIZE, i => 0)
  }

  function Content(s: Users, f: nat): Page {
    if f in s.mem then s.mem[f] else ZeroFrame()
  }

  function Poke(page: Page, off: nat, v: Byte): Page {
    if off < PGSIZE then page[off := v] else page
  }

  predicate Writable(e: Entry) { Has(e.flags, PTE_W) }
  predicate Cow(e: Entry) { Has(e.flags, PTE_COW) }
  predicate Share(e: Entry) { Has(e.flags, PTE_SHARE) }
  predicate User(e: Entry) { Present(e) && Has(e.flags, PTE_U) }

  /** PTE_SYSCALL includes bit 0x800, so only a page without write access counts as copy-on-write. */
  predicate CowOnly(e: Entry) { Cow(e) && !Writable(e) && !Share(e) && User(e) }
  predicate Owned(e: Entry) { Writable(e) && !Share(e) && User(e) }

  const COW_PERM: Flags := 0x805
  const WRITE_PERM: Flags := 0x007
  const READ_PERM: Flags := 0x005

  lemma PermFacts(f: nat)
    ensures COW_PERM == PTE_COW | PTE_U | PTE_P && WRITE_PERM == PTE_W | PTE_U | PTE_P && READ_PERM == PTE_U | PTE_P
    ensures CowOnly(PresentEntry(f, COW_PERM))
    ensures Owned(PresentEntry(f, WRITE_PERM))
    ensures var e := PresentEntry(f, READ_PERM); User(e) && !Writable(e) && !Cow(e) && !Share(e)
    ensures var e := PresentEntry(f, PTE_SYSCALL); User(e) && Writable(e) && Share(e)
    ensures Has(COW_PERM, PTE_U | PTE_P) && Has(WRITE_PERM, PTE_U | PTE_P) && Has(READ_PERM, PTE_U | PTE_P)
    ensures Has(PTE_SYSCALL, PTE_U | PTE_P) && Has(PTE_SYSCALL, PTE_W) && Has(WRITE_PERM, PTE_W)
    ensures !Has(COW_PERM, PTE_W) && !Has(READ_PERM, PTE_W)
  {
  }

  // ----- the page system calls, on a plain map -----

  predicate Fresh(s: Users, f: nat) {
    forall k :: k in s.pt ==> s.pt[k].frame != f
  }

  /** sys_page_map between page-aligned user addresses; None for -E_INVAL. */
  function SysMap(s: Users, src: Slot, dst: Slot, perm: Flags): Option<Users> {
    if src !in s.pt || !Has(perm, PTE_U | PTE_P) || (!Writable(s.pt[src]) && Has(perm, PTE_W)) then None
    else Some(s.(pt := s.pt[dst := PresentEntry(s.pt[src].frame, perm)]))
  }

  function Mapped(s: Users, src: Slot, dst: Slot, perm: Flags): Users {
    var r := SysMap(s, src, dst, perm);
    if r.Some? then r.value else s
  }

  /** sys_page_alloc of frame `f`. */
  function SysAlloc(s: Users, k: Slot, f: nat, perm: Flags): Users {
    s.(pt := s.pt[k := PresentEntry(f, perm)], mem := s.mem[f := ZeroFrame()])
  }

  function SysUnmap(s: Users, k: Slot): Users {
    s.(pt := s.pt - {k})
  }

  // ----- steps -----

  datatype Op =
    | Write(e: nat, pn: nat, off: nat, v: Byte)  // a store that the page table allows
    | Enter(e: nat, pn: nat)                     // a store faults and pgfault starts
    | TakeFrame(e: nat, f: nat)                  // sys_page_alloc(0, PFTEMP, ...)
    | CopyByte(e: nat)                           // one byte of the memmove
    | MoveFrame(e: nat)                          // sys_page_map(0, PFTEMP, 0, addr, ...)
    | Leave(e: nat)                              // sys_page_unmap(0, PFTEMP)
    | StartFork(e: nat, c: nat)                  // sys_exofork
    | Dup(e: nat)                                // a page of fork's loop, up to duppage's first sys_page_map
    | DupAgain(e: nat)                           // duppage's second sys_page_map
    | ChildStack(e: nat, f: nat)                 // sys_page_alloc(child, UXSTACKTOP - PGSIZE, ...)
    | EndFork(e: nat)                            // sys_env_set_status(child, ENV_RUNNABLE)
    | Exit(e: nat)

  /** Environment `e` may run: it exists and nobody is still building it. */
  predicate Runs(s: Users, e: nat) {
    e in s.ctl && s.ctl[e].parent.None?
  }

  predicate Idle(s: Users, e: nat) {
    Runs(s, e) && s.ctl[e].fork.None? && s.ctl[e].fault.None?
  }

  predicate Faulting(s: Users, e: nat) {
    e in s.ctl && s.ctl[e].fault.Some?
  }

  /** `e` is inside fork and not, at the moment, inside pgfault. */
  predicate Forking(s: Users, e: nat) {
    Runs(s, e) && s.ctl[e].fork.Some? && s.ctl[e].fault.None?
  }

  predicate Enabled(s: Users, op: Op) {
    match op
    case Write(e, pn, off, v) =>
      // inside the handler only its own stack is written
      Runs(s, e) && Slot(e, pn) in s.pt && Writable(s.pt[Slot(e, pn)]) && (s.ctl[e].fault.None? || pn == UX_PAGE)
    case Enter(e, pn) =>
      // below the exception stack: there the kernel itself would refuse
      Runs(s, e) && s.ctl[e].fault.None? && pn < STACK_PAGES && Slot(e, pn) in s.pt && CowOnly(s.pt[Slot(e, pn)])
    case TakeFrame(e, f) => Faulting(s, e) && s.ctl[e].fault.value.stage == Entered && Fresh(s, f)
    case CopyByte(e) =>
      Faulting(s, e) && s.ctl[e].fault.value.stage.Copying? && s.ctl[e].fault.value.stage.done < PGSIZE
    case MoveFrame(e) => Faulting(s, e) && s.ctl[e].fault.value.stage == Copying(PGSIZE)
    case Leave(e) => Faulting(s, e) && s.ctl[e].fault.value.stage == Moved
    case StartFork(e, c) =>
      // the id is new to everyone
      Idle(s, e) && c !in s.ctl && forall a :: a in s.ctl ==> s.ctl[a].parent != Some(c)
    case Dup(e) => Forking(s, e) && s.ctl[e].fork.value.half.None? && s.ctl[e].fork.value.next < STACK_PAGES
    case DupAgain(e) => Forking(s, e) && s.ctl[e].fork.value.half.Some?
    case ChildStack(e, f) => Forking(s, e) && s.ctl[e].fork.value.next == STACK_PAGES && Fresh(s, f)
    case EndFork(e) => Forking(s, e) && s.ctl[e].fork.value.next == STACK_PAGES + 1
    case Exit(e) => Runs(s, e)
  }

  function SetFault(s: Users, e: nat, fault: Option<Fault>): Users {
    if e in s.ctl then s.(ctl := s.ctl[e := s.ctl[e].(fault := fault)]) else s
  }

  function SetFork(s: Users, e: nat, fork: Option<Fork>): Users {
    if e in s.ctl then s.(ctl := s.ctl[e := s.ctl[e].(fork := fork)]) else s
  }

  /** One page of fork's loop: skip it, share it, map it read-only, or make the child's entry copy-on-write. */
  function DupFirst(s: Users, e: nat, fork: Fork): Users {
    var src, dst := Slot(e, fork.next), Slot(fork.child, fork.next);
    var onward := Some(fork.(next := fork.next + 1));
    if src !in s.pt || !User(s.pt[src]) then SetFork(s, e, onward)
    else if Share(s.pt[src]) then SetFork(Mapped(s, src, dst, PTE_SYSCALL), e, onward)
    else if Writable(s.pt[src]) || Cow(s.pt[src]) then
      SetFork(Mapped(s, src, dst, COW_PERM), e, Some(fork.(half := Some(Writable(s.pt[src])))))
    else SetFork(Mapped(s, src, dst, READ_PERM), e, onward)
  }

  function Copied(s: Users, e: nat, pn: nat, k: nat): Users {
    if Slot(e, pn) in s.pt && Slot(e, TEMP) in s.pt && k < PGSIZE then
      var to := s.pt[Slot(e, TEMP)].frame;
      s.(mem := s.mem[to := Poke(Content(s, to), k, Content(s, s.pt[Slot(e, pn)].frame)[k])])
    else s
  }

  /** The page calls leave everybody's progress alone. */
  lemma CallsAside(u: Users)
    ensures forall src, dst, perm :: Mapped(u, src, dst, perm).ctl == u.ctl
    ensures forall e, pn, k: nat :: Copied(u, e, pn, k).ctl == u.ctl
  {
  }

  function Apply(s: Users, op: Op): Users
    requires Enabled(s, op)
  {
    match op
    case Write(e, pn, off, v) =>
      var f := s.pt[Slot(e, pn)].frame;
      s.(mem := s.mem[f := Poke(Content(s, f), off, v)])
    case Enter(e, pn) => SetFault(s, e, Some(Fault(pn, Entered)))
    case TakeFrame(e, f) =>
      SetFault(SysAlloc(s, Slot(e, TEMP), f, WRITE_PERM), e, Some(Fault(s.ctl[e].fault.value.pn, Copying(0))))
    case CopyByte(e) =>
      var fault := s.ctl[e].fault.value;
      SetFault(Copied(s, e, fault.pn, fault.stage.done), e, Some(Fault(fault.pn, Copying(fault.stage.done + 1))))
    case MoveFrame(e) =>
      var pn := s.ctl[e].fault.value.pn;
      SetFault(Mapped(s, Slot(e, TEMP), Slot(e, pn), WRITE_PERM), e, Some(Fault(pn, Moved)))
    case Leave(e) => SetFault(SysUnmap(s, Slot(e, TEMP)), e, None)
    case StartFork(e, c) =>
      SetFork(s.(ctl := s.ctl[c := Control(Some(e), None, None)]), e, Some(Fork(c, 0, None)))
    case Dup(e) => DupFirst(s, e, s.ctl[e].fork.value)
    case DupAgain(e) =>
      var fork := s.ctl[e].fork.value;
      SetFork(Mapped(s, Slot(e, fork.next), Slot(e, fork.next), COW_PERM), e, Some(Fork(fork.child, fork.next + 1, None)))
    case ChildStack(e, f) =>
      var fork := s.ctl[e].fork.value;
      SetFork(SysAlloc(s, Slot(fork.child, UX_PAGE), f, WRITE_PERM), e, Some(Fork(fork.child, STACK_PAGES + 1, None)))
    case EndFork(e) =>
      var c := s.ctl[e].fork.value.child;
      SetFork(if c in s.ctl then s.(ctl := s.ctl[c := s.ctl[c].(parent := None)]) else s, e, None)
    case Exit(e) =>
      s.(pt := map k | k in s.pt && k.env != e :: s.pt[k], ctl := s.ctl - {e})
  }
}
