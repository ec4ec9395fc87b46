/** The UVPT window: a directory's own page tables, read through itself. */
module SelfMap {
  import opened Mmu
  import opened Options
  import opened PageTables
  import opened RefCounts
  import opened AddressSpaces

  /** A word of physical memory. */
  datatype Location = Location(frame: nat, index: nat)

  /** The word that the byte address `va` reaches through directory `d`. */
  function Reach(s: Phys, d: nat, va: nat): Option<Location> {
    var x := Translate(s, d, va / 4096);
    if x.Some? then Some(Location(x.value.entry.frame, va % 4096 / 4)) else None
  }

  /** The addresses of uvpt[pn] and uvpd[i]: entries are four bytes, so "UVPT >> PGSHIFT" is scaled by 4. */
  function UvptEntry(pn: nat): nat { UVPT + 4 * pn }
  function UvpdEntry(i: nat): nat { UVPT + 4 * (UVPT / 4096) + 4 * i }

  lemma WindowAddress(pn: nat)
    requires pn < ALL_PAGES
    ensures UvptEntry(pn) / 4096 == WindowPage(pn) && UvptEntry(pn) % 4096 / 4 == Ptx(pn)
    ensures Pdx(WindowPage(pn)) == PDX_UVPT && Ptx(WindowPage(pn)) == Pdx(pn)
  {
  }

  lemma DirectoryAddress(i: nat)
    requires i < NPDENTRIES
    ensures UvpdEntry(i) == UvptEntry(PageAt(PDX_UVPT, i))
  {
  }

  lemma ReachEntry(s: Phys, d: nat, pn: nat)
    requires pn < ALL_PAGES
    ensures var x := Translate(s, d, WindowPage(pn));
      Reach(s, d, UvptEntry(pn)) == if x.Some? then Some(Location(x.value.entry.frame, Ptx(pn))) else None
  {
    WindowAddress(pn);
    hide UvptEntry, WindowPage, Ptx, Translate;
  }

  /** Through its own UVPT slot a directory serves as a page table. */
  lemma WindowShows(s: Phys, d: nat, pn: nat)
    requires KernelHalf(s) && Directory(s, d) && pn < ALL_PAGES
    ensures var pde := Word(s, d, Pdx(pn));
      Translate(s, d, WindowPage(pn)) == if Present(pde) then Some(Xlat(PresentEntry(d, PTE_U).flags, pde)) else None
  {
    WindowAddress(pn);
    assert Word(s, d, PDX_UVPT) == PresentEntry(d, PTE_U);
    hide UvptEntry, WindowPage, Pdx, Ptx, KernelHalf, Word;
  }

  /** uvpt[pn] reaches exactly the page-table entry of page `pn`, if its table is present, and nothing otherwise;
      uvpd[i] reaches the directory entry. The window grants no write access. */
  lemma SelfMapExact(s: Phys, d: nat, pn: nat)
    requires KernelHalf(s) && Directory(s, d) && pn < ALL_PAGES
    ensures var pde := Word(s, d, Pdx(pn));
      Reach(s, d, UvptEntry(pn)) == if Present(pde) then Some(Location(pde.frame, Ptx(pn))) else None
    ensures Reach(s, d, UvpdEntry(Pdx(pn))) == Some(Location(d, Pdx(pn)))
    ensures var x := Translate(s, d, WindowPage(pn)); x.Some? ==> !Has(x.value.dirFlags, PTE_W)
  {
    var self := PageAt(PDX_UVPT, Pdx(pn));
    SlotInWindow(pn);
    assert Word(s, d, PDX_UVPT) == PresentEntry(d, PTE_U);
    hide Reach, UvptEntry, UvpdEntry, WindowPage, Pdx, Ptx, PageAt, KernelHalf, Word, Translate;
    ReachEntry(s, d, pn);
    WindowShows(s, d, pn);
    ReachEntry(s, d, self);
    WindowShows(s, d, self);
  }

  lemma SlotInWindow(pn: nat)
    requires pn < ALL_PAGES
    ensures var self := PageAt(PDX_UVPT, Pdx(pn));
      self < ALL_PAGES && UvpdEntry(Pdx(pn)) == UvptEntry(self) && Pdx(self) == PDX_UVPT && Ptx(self) == Pdx(pn)
  {
    DirectoryAddress(Pdx(pn));
    PageSplit(PageAt(PDX_UVPT, Pdx(pn)), PDX_UVPT, Pdx(pn));
  }

  /** The byte address UVPT + (UVPT >> PGSHIFT), unscaled, is word 256 of the page table at directory slot 239, if there is
      one: it never reaches the directory. */
  lemma UnscaledMisses(s: Phys, d: nat)
    requires Structure(s) && Directory(s, d)
    ensures var pde := Word(s, d, 239);
      && Reach(s, d, UVPT + UVPT / 4096) == (if Present(pde) then Some(Location(pde.frame, 256)) else None)
      && (Present(pde) ==> pde.frame != d)
  {
    var pn := 239 * 1024 + 256;
    assert UvptEntry(pn) == UVPT + UVPT / 4096 && Pdx(pn) == 239 && Ptx(pn) == 256;
    SelfMapExact(s, d, pn);
    assert d == s.kdir ==> !Present(Word(s, d, 239));
    hide Reach, KernelHalf, Word;
    if d in s.dirs && Present(Word(s, d, 239)) {
      UserTable(s, d, 239);
    }
  }
}
