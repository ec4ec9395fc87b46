/** env_free as a processor lives through it: the TLB may fill at any moment of the teardown. */
module TlbFree {
  import opened Mmu
  import opened Options
  import opened PageTables
  import opened RefCounts
  import opened AddressSpaces
  import opened Lifetime
  import opened Tlb

  /** One turn of the inner loop. */
  function UnmapTurn(s: Phys, d: nat, i: nat, j: nat): Phys {
    if Present(Word(s, Word(s, d, i).frame, j)) then PageRemove(s, d, PageAt(i, j)) else s
  }

  ghost predicate TurnTlb(s: Phys, d: nat, i: nat, j: nat, cur: Option<nat>, c: Cpu, c': Cpu) {
    if Present(Word(s, Word(s, d, i).frame, j)) then RemoveTlb(s, d, PageAt(i, j), cur, c, c') else Fills(s, c, c')
  }

  /** The inner loop from entry j on. */
  ghost predicate UnmapTlb(s: Phys, d: nat, i: nat, j: nat, cur: Option<nat>, c: Cpu, c': Cpu)
    decreases NPTENTRIES - j
  {
    if j >= NPTENTRIES then Fills(s, c, c')
    else exists c1 :: TurnTlb(s, d, i, j, cur, c, c1) && UnmapTlb(UnmapTurn(s, d, i, j), d, i, j + 1, cur, c1, c')
  }

  /** The outer loop from slot i on. */
  ghost predicate FreeTablesTlb(s: Phys, d: nat, i: nat, cur: Option<nat>, c: Cpu, c': Cpu)
    decreases PDX_UTOP - i
  {
    if i >= PDX_UTOP then Fills(s, c, c')
    else if !Present(Word(s, d, i)) then FreeTablesTlb(s, d, i + 1, cur, c, c')
    else exists c1 ::
      UnmapTlb(s, d, i, 0, cur, c, c1) && FreeTablesTlb(DropTable(UnmapFrom(s, d, i, 0), d, i), d, i + 1, cur, c1, c')
  }

  /** env_free: off the directory first, if it is the current one. */
  ghost predicate EnvFreeTlb(s: Phys, d: nat, cur: Option<nat>, c: Cpu, c': Cpu) {
    exists c1 ::
      FreeTablesTlb(s, d, 0, cur, if cur == Some(d) then Lcr3(s.kdir) else c, c1) && Fills(EnvFree(s, d), c1, c')
  }

  lemma TurnCoherent(s: Phys, d: nat, i: nat, j: nat, cur: Option<nat>, c: Cpu, c': Cpu)
    requires Sound(s) && d in s.dirs && i < PDX_UTOP && j < NPTENTRIES && Present(Word(s, d, i))
    requires Active(s, c, cur) && Coherent(s, c) && TurnTlb(s, d, i, j, cur, c, c')
    ensures var s' := UnmapTurn(s, d, i, j);
      Sound(s') && SameSpace(s, s') && Word(s', d, i) == Word(s, d, i) && Active(s', c', cur) && Coherent(s', c') && c'.cr3 == c.cr3
  {
    PageSplit(PageAt(i, j), i, j);
    UnmapStep(s, d, i, j);
    hide Inv, PageRemove, RemoveTlb, Translate;
    if Present(Word(s, Word(s, d, i).frame, j)) {
      RemoveCoherent(s, d, PageAt(i, j), cur, c, c');
    } else {
      FillsKeep(s, c, c');
    }
  }

  lemma {:induction false} UnmapCoherent(s: Phys, d: nat, i: nat, j: nat, cur: Option<nat>, c: Cpu, c': Cpu)
    requires Sound(s) && d in s.dirs && i < PDX_UTOP && Present(Word(s, d, i))
    requires Active(s, c, cur) && Coherent(s, c) && UnmapTlb(s, d, i, j, cur, c, c')
    ensures var s' := UnmapFrom(s, d, i, j); Coherent(s', c') && c'.cr3 == c.cr3
    decreases NPTENTRIES - j
  {
    if j >= NPTENTRIES {
      FillsKeep(s, c, c');
    } else {
      var c1 :| TurnTlb(s, d, i, j, cur, c, c1) && UnmapTlb(UnmapTurn(s, d, i, j), d, i, j + 1, cur, c1, c');
      TurnCoherent(s, d, i, j, cur, c, c1);
      UnmapCoherent(UnmapTurn(s, d, i, j), d, i, j + 1, cur, c1, c');
    }
  }

  /** Dropping a table of another directory contradicts nothing that is cached. */
  lemma DropCoherent(s: Phys, d: nat, i: nat, c: Cpu)
    requires Sound(s) && d in s.dirs && i < PDX_UTOP && Present(Word(s, d, i))
    requires Directory(s, c.cr3) && c.cr3 != d && Coherent(s, c)
    ensures Coherent(DropTable(s, d, i), c)
  {
    DropTableView(s, d, i);
  }

  lemma {:induction false} FreeTablesCoherent(s: Phys, d: nat, i: nat, cur: Option<nat>, c: Cpu, c': Cpu)
    requires Sound(s) && d in s.dirs && Active(s, c, cur) && Coherent(s, c) && c.cr3 != d
    requires FreeTablesTlb(s, d, i, cur, c, c')
    ensures var s' := FreeTablesFrom(s, d, i); Coherent(s', c') && c'.cr3 == c.cr3
    decreases PDX_UTOP - i
  {
    if i >= PDX_UTOP {
      FillsKeep(s, c, c');
    } else if !Present(Word(s, d, i)) {
      FreeTablesCoherent(s, d, i + 1, cur, c, c');
    } else {
      var s1 := UnmapFrom(s, d, i, 0);
      var s2 := DropTable(s1, d, i);
      var c1 :| UnmapTlb(s, d, i, 0, cur, c, c1) && FreeTablesTlb(s2, d, i + 1, cur, c1, c');
      UnmapCoherent(s, d, i, 0, cur, c, c1);
      UnmapKeeps(s, d, i, 0);
      DropCoherent(s1, d, i, c1);
      FreeTableStep(s, d, i);
      FreeTablesCoherent(s2, d, i + 1, cur, c1, c');
    }
  }

  /** env_free leaves no stale translation, whenever the TLB filled: the processor is on another directory throughout. */
  lemma EnvFreeCoherent(s: Phys, d: nat, cur: Option<nat>, c: Cpu, c': Cpu)
    requires Sound(s) && d in s.dirs && d != s.kdir && Active(s, c, cur) && Coherent(s, c)
    requires (cur.None? ==> c.cr3 == s.kdir) && EnvFreeTlb(s, d, cur, c, c')
    ensures Coherent(EnvFree(s, d), c')
    ensures c'.cr3 == if cur == Some(d) then s.kdir else c.cr3
  {
    var start := if cur == Some(d) then Lcr3(s.kdir) else c;
    var c1 :| FreeTablesTlb(s, d, 0, cur, start, c1) && Fills(EnvFree(s, d), c1, c');
    FreeTablesCoherent(s, d, 0, cur, start, c1);
    LastDrop(s, d, c1);
    FillsKeep(EnvFree(s, d), c1, c');
  }

  lemma LastDrop(s: Phys, d: nat, c: Cpu)
    requires Coherent(FreeTablesFrom(s, d, 0), c)
    ensures Coherent(EnvFree(s, d), c)
  {
    var s1 := FreeTablesFrom(s, d, 0);
    CountsAside(s1.(dirs := s1.dirs - {d}), EnvFree(s, d));
  }

  /** The switch to kern_pgdir is needed: a processor still on the directory keeps what the UVPT window showed. */
  lemma StayingWouldLeaveStale(s: Phys, d: nat, i: nat)
    requires Sound(s) && d in s.dirs && i < PDX_UTOP && Present(Word(s, d, i))
    ensures var pn := PageAt(PDX_UVPT, i); var c := Cpu(d, map[pn := Translate(s, d, pn).value]);
      Translate(s, d, pn).Some? && Coherent(s, c) && !Coherent(DropTable(s, d, i), c)
  {
    var pn := PageAt(PDX_UVPT, i);
    PageSplit(pn, PDX_UVPT, i);
    UserTable(s, d, i);
    var m := Store(s, d, i, ABSENT);
    assert Target(s, Dir(d)) == Some(d);
    CountsAside(m, DropTable(s, d, i));
  }
}
