/** Whole runs of one processor's kernel: memory system calls, environment creation and destruction,
    context switches and halts, with the TLB filling itself at any time. */
module Machine {
  import opened Mmu
  import opened Options
  import opened PageTables
  import opened RefCounts
  import opened AddressSpaces
  import opened Lifetime
  import opened Syscalls
  import opened Tlb
  import opened TlbFree

  /** `cur` is curenv's page directory. */
  datatype Mach = Mach(s: Phys, cpu: Cpu, cur: Option<nat>)

  datatype Op =
    | Idle
    | Alloc(d: nat, va: nat, perm: Perm)
    | Map(sd: nat, srcva: nat, d: nat, va: nat, perm: Perm)
    | Unmap(d: nat, va: nat)
    | Create
    | Destroy(d: nat)
    | Run(d: nat)
    | Halt

  /** Counts exact, tables unshared, free list exact, and the TLB consistent. */
  ghost predicate Safe(m: Mach) {
    && Sound(m.s)
    && Active(m.s, m.cpu, m.cur)
    && (m.cur.None? ==> m.cpu.cr3 == m.s.kdir)
    && (m.cur.Some? ==> m.cur.value in m.s.dirs)
    && Coherent(m.s, m.cpu)
  }

  /** The calls that memory survives: bits of `perm` above the flags leave the frame number alone, and the count of
      the page to be mapped has room or need not change. Calls that fail are harmless. */
  predicate Allowed(m: Mach, op: Op) {
    match op
    case Alloc(d, va, perm) =>
      SysPageAlloc(m.s, d, va, perm).code != Ok || m.s.free == [] || Or(m.s.free[0], perm.high) == m.s.free[0]
    case Map(sd, srcva, d, va, perm) =>
      var pg := PageLookup(m.s, sd, PageNum(srcva));
      SysPageMap(m.s, sd, srcva, d, va, perm).code != Ok || pg.None? || Fits(m.s, d, pg.value, PageNum(va), perm)
    case _ => true
  }

  ghost predicate Step(m: Mach, op: Op, m': Mach) {
    match op
    case Idle => m'.s == m.s && m'.cur == m.cur && Fills(m.s, m.cpu, m'.cpu)
    case Alloc(d, va, perm) =>
      && d in m.s.dirs && m'.cur == m.cur
      && m'.s == SysPageAlloc(m.s, d, va, perm).s
      && if BadAddress(va) || !Has(perm.flags, PTE_U | PTE_P) || m.s.free == [] then Fills(m.s, m.cpu, m'.cpu)
         else InsertTlb(PageAlloc(m.s, true).s, d, m.s.free[0], PageNum(va), perm, m.cur, m.cpu, m'.cpu)
    case Map(sd, srcva, d, va, perm) =>
      && sd in m.s.dirs && d in m.s.dirs && m'.cur == m.cur
      && m'.s == SysPageMap(m.s, sd, srcva, d, va, perm).s
      && if SysPageMap(m.s, sd, srcva, d, va, perm).code == Inval then Fills(m.s, m.cpu, m'.cpu)
         else InsertTlb(m.s, d, PageLookup(m.s, sd, PageNum(srcva)).value, PageNum(va), perm, m.cur, m.cpu, m'.cpu)
    case Unmap(d, va) =>
      && d in m.s.dirs && m'.cur == m.cur
      && m'.s == SysPageUnmap(m.s, d, va).s
      && if BadAddress(va) then Fills(m.s, m.cpu, m'.cpu)
         else RemoveTlb(m.s, d, PageNum(va), m.cur, m.cpu, m'.cpu)
    case Create =>
      m'.s == EnvSetupVm(m.s).s && m'.cur == m.cur && Fills(m'.s, m.cpu, m'.cpu)
    case Destroy(d) =>
      && d in m.s.dirs
      && m'.s == EnvFree(m.s, d)
      && m'.cur == (if m.cur == Some(d) then None else m.cur)
      && EnvFreeTlb(m.s, d, m.cur, m.cpu, m'.cpu)
    case Run(d) =>
      d in m.s.dirs && m'.s == m.s && m'.cur == Some(d) && Fills(m.s, Lcr3(d), m'.cpu)
    case Halt =>
      m'.s == m.s && m'.cur == None && Fills(m.s, Lcr3(m.s.kdir), m'.cpu)
  }

  lemma AllocStep(m: Mach, op: Op, m': Mach)
    requires Safe(m) && Step(m, op, m') && op.Alloc?
    ensures (Safe(m') <==> Allowed(m, op)) && Coherent(m'.s, m'.cpu)
  {
    SysPageAllocKeeps(m.s, op.d, op.va, op.perm);
    hide Sound;
    if !BadAddress(op.va) && Has(op.perm.flags, PTE_U | PTE_P) && m.s.free != [] {
      AllocTlb(m.s, op.d, op.va, op.perm, m.cur, m.cpu, m'.cpu);
    }
  }

  lemma AllocTlb(s: Phys, d: nat, va: nat, perm: Perm, cur: Option<nat>, c: Cpu, c': Cpu)
    requires Sound(s) && d in s.dirs && !BadAddress(va) && Has(perm.flags, PTE_U | PTE_P) && s.free != []
    requires Active(s, c, cur) && Coherent(s, c)
    requires InsertTlb(PageAlloc(s, true).s, d, s.free[0], PageNum(va), perm, cur, c, c')
    ensures Coherent(SysPageAlloc(s, d, va, perm).s, c') && c'.cr3 == c.cr3
  {
    var a, f := PageAlloc(s, true).s, s.free[0];
    var s' := SysPageAlloc(s, d, va, perm).s;
    var ins := PageInsert(a, d, f, PageNum(va), perm);
    assert s' == if ins.ok then ins.s else PageFree(ins.s, f);
    hide Inv, PageInsert, PageAlloc, InsertTlb, SysPageAlloc, Insertable;
    NewPageInsertable(s, true);
    UserAddress(va);
    AllocCoherent(s, c);
    InsertCoherent(a, {f}, d, f, PageNum(va), perm, cur, c, c');
    CountsAside(ins.s, s');
  }

  lemma AllocCoherent(s: Phys, c: Cpu)
    requires Sound(s) && s.free != [] && Directory(s, c.cr3) && Coherent(s, c)
    ensures Coherent(PageAlloc(s, true).s, c)
  {
    forall p | p in c.tlb ensures Translate(PageAlloc(s, true).s, c.cr3, p) == Some(c.tlb[p]) {
      AllocView(s, true, c.cr3, p);
    }
  }

  lemma MapStep(m: Mach, op: Op, m': Mach)
    requires Safe(m) && Step(m, op, m') && op.Map?
    ensures (Safe(m') <==> Allowed(m, op)) && Coherent(m'.s, m'.cpu)
  {
    var s := m.s;
    SysPageMapKeeps(s, op.sd, op.srcva, op.d, op.va, op.perm);
    hide Inv, Fits;
    if SysPageMap(s, op.sd, op.srcva, op.d, op.va, op.perm).code != Inval {
      UserAddress(op.srcva);
      UserAddress(op.va);
      var p := PageLookup(s, op.sd, PageNum(op.srcva)).value;
      InsertCoherent(s, {}, op.d, p, PageNum(op.va), op.perm, m.cur, m.cpu, m'.cpu);
    }
  }

  lemma UnmapOpStep(m: Mach, op: Op, m': Mach)
    requires Safe(m) && Step(m, op, m') && op.Unmap?
    ensures Safe(m')
  {
    SysPageUnmapKeeps(m.s, op.d, op.va);
    if !BadAddress(op.va) {
      UserAddress(op.va);
      RemoveCoherent(m.s, op.d, PageNum(op.va), m.cur, m.cpu, m'.cpu);
    }
  }

  lemma CreateStep(m: Mach, m': Mach)
    requires Safe(m) && Step(m, Create, m')
    ensures Safe(m')
  {
    SetupKeeps(m.s);
    if EnvSetupVm(m.s).frame.Some? {
      SetupView(m.s);
    }
  }

  lemma DestroyStep(m: Mach, d: nat, m': Mach)
    requires Safe(m) && Step(m, Destroy(d), m')
    ensures Safe(m')
  {
    EnvFreeKeeps(m.s, d);
    KernelNotUser(m.s, d);
    EnvFreeCoherent(m.s, d, m.cur, m.cpu, m'.cpu);
  }

  lemma KernelNotUser(s: Phys, d: nat)
    requires Structure(s) && d in s.dirs
    ensures d != s.kdir
  {
    assert Target(s, Boot(s.kdir)) == Some(s.kdir);
    assert Target(s, Dir(d)) == Some(d);
  }

  lemma QuietStep(m: Mach, op: Op, m': Mach)
    requires Safe(m) && Step(m, op, m') && (op.Idle? || op.Run? || op.Halt?)
    ensures Safe(m')
  {
    hide Sound;
  }

  lemma SafeMeans(m: Mach, op: Op)
    ensures Safe(m) ==> Coherent(m.s, m.cpu)
    ensures Allowed(m, op) || op.Alloc? || op.Map?
    ensures op.Alloc? || op.Map? || op.Unmap? || op.Create? || op.Destroy? || op.Idle? || op.Run? || op.Halt?
  {
  }

  /** Exactly the calls that are not allowed break the memory invariant; nothing breaks the TLB. */
  lemma StepSafeIff(m: Mach, op: Op, m': Mach)
    requires Safe(m) && Step(m, op, m')
    ensures Safe(m') <==> Allowed(m, op)
    ensures Coherent(m'.s, m'.cpu)
  {
    SafeMeans(m', op);
    SafeMeans(m, op);
    hide *;
    match op
    case Alloc(_, _, _) => AllocStep(m, op, m');
    case Map(_, _, _, _, _) => MapStep(m, op, m');
    case Unmap(_, _) => UnmapOpStep(m, op, m');
    case Create => CreateStep(m, m');
    case Destroy(d) => DestroyStep(m, d, m');
    case _ => QuietStep(m, op, m');
  }

  /** In every state of every run of allowed calls the counts are exact, free pages are exactly the unreferenced ones,
      tables are unshared and no cached translation contradicts the page tables. */
  lemma {:induction false} RunsAreSafe(ms: seq<Mach>, ops: seq<Op>)
    requires |ms| == |ops| + 1 && Safe(ms[0])
    requires forall k :: 0 <= k < |ops| ==> Step(ms[k], ops[k], ms[k + 1]) && Allowed(ms[k], ops[k])
    ensures forall k :: 0 <= k < |ms| ==> Safe(ms[k])
  {
    hide Safe, Step, Allowed;
    if ops != [] {
      var n := |ops| - 1;
      RunsAreSafe(ms[..n + 1], ops[..n]);
      assert ms[..n + 1][n] == ms[n];
      StepSafeIff(ms[n], ops[n], ms[n + 1]);
    }
  }

  /** Where runs begin: page_init, boot_map_region and the first lcr3 leave a sound memory without environments. */
  lemma BootIsSafe(s: Phys)
    requires Sound(s) && s.dirs == {}
    ensures Safe(Mach(s, Lcr3(s.kdir), None))
  {
  }
}
