/** Paging constants and page-table entries of the 32-bit paging format
    (Intel SDM Vol. 3A, section 4.3), as inc/mmu.h and inc/memlayout.h define them. */
module Mmu {
  const PGSIZE: nat := 4096
  const NPDENTRIES: nat := 1024
  const NPTENTRIES: nat := 1024
  const PTSIZE: nat := PGSIZE * NPTENTRIES

  const KERNBASE: nat := 0xF0000000
  const ULIM: nat := KERNBASE - 2 * PTSIZE
  const UVPT: nat := ULIM - PTSIZE
  const UTOP: nat := UVPT - 2 * PTSIZE
  const USTACKTOP: nat := UTOP - 2 * PGSIZE
  const PFTEMP: nat := 2 * PTSIZE - PGSIZE
  const ADDRESSES: nat := 0x1_0000_0000

  /** Page directory indices that separate user, kernel and self-map slots. */
  const PDX_UTOP: nat := 955
  const PDX_UVPT: nat := 957
  /** The number of user pages: page numbers below this one are below UTOP. */
  const USER_PAGES: nat := PDX_UTOP * NPTENTRIES

  lemma Layout()
    ensures UTOP == PDX_UTOP * PTSIZE == USER_PAGES * PGSIZE && UVPT == PDX_UVPT * PTSIZE
  {
  }

  type Flags = bv12
  const PTE_P: Flags := 0x001
  const PTE_W: Flags := 0x002
  const PTE_U: Flags := 0x004
  const PTE_SHARE: Flags := 0x400
  const PTE_COW: Flags := 0x800
  const PTE_SYSCALL: Flags := 0xE07

  /** A 32-bit page-table word, split into its page frame number and its low twelve bits. */
  datatype Entry = Entry(frame: nat, flags: Flags)

  const ABSENT: Entry := Entry(0, 0)

  predicate Has(flags: Flags, bits: Flags) {
    flags & bits == bits
  }

  predicate Present(e: Entry) {
    Has(e.flags, PTE_P)
  }

  /** The word `pa | perm | PTE_P` for a `perm` of twelve bits. */
  function PresentEntry(frame: nat, perm: Flags): (e: Entry)
    ensures Present(e) && e.frame == frame && Has(e.flags, perm)
  {
    Entry(frame, perm | PTE_P)
  }

  /** The `int perm` of the system calls, split like a page-table word: what lies above the twelve flag bits
      falls on the frame number. */
  datatype Perm = Perm(high: nat, flags: Flags)

  function Plain(flags: Flags): Perm {
    Perm(0, flags)
  }

  /** Bitwise or. */
  function Or(a: nat, b: nat): nat {
    if a == 0 then b
    else if b == 0 then a
    else 2 * Or(a / 2, b / 2) + if a % 2 == 1 || b % 2 == 1 then 1 else 0
  }

  /** The word `pa | perm | PTE_P` that page_insert stores. */
  function StoredEntry(frame: nat, perm: Perm): (e: Entry)
    ensures Present(e) && Has(e.flags, perm.flags)
  {
    PresentEntry(Or(frame, perm.high), perm.flags)
  }

  lemma PlainStores(frame: nat, flags: Flags)
    ensures StoredEntry(frame, Plain(flags)) == PresentEntry(frame, flags)
  {
  }

  /** Bit 12 of `perm` moves an even frame to its odd neighbour. */
  lemma OrOne(frame: nat)
    ensures Or(frame, 1) == if frame % 2 == 0 then frame + 1 else frame
  {
  }

  // Addresses are split as PDX, PTX and PGNUM do; a page number stands for its page's address.
  function PageNum(va: nat): nat { va / 4096 }
  function Pdx(pn: nat): nat { pn / 1024 }
  function Ptx(pn: nat): nat { pn % 1024 }

  /** PGADDR(i, j, 0), as a page number. */
  function PageAt(i: nat, j: nat): nat { i * 1024 + j }

  lemma PageSplit(pn: nat, i: nat, j: nat)
    requires j < NPTENTRIES
    ensures pn == PageAt(i, j) <==> Pdx(pn) == i && Ptx(pn) == j
    ensures Pdx(PageAt(i, j)) == i && Ptx(PageAt(i, j)) == j
    ensures i < PDX_UTOP ==> PageAt(i, j) < USER_PAGES
  {
  }

  lemma UserPage(pn: nat)
    requires pn < USER_PAGES
    ensures Pdx(pn) < PDX_UTOP && Ptx(pn) < NPTENTRIES
  {
  }
}
