/** user_mem_check: which byte ranges a user environment may pass to the kernel. */
module UserMem {
  import opened Mmu
  import opened Options
  import opened PageTables

  function Wrap(a: nat): nat { a % ADDRESSES }
  function RoundDown(a: nat): nat { a - a % PGSIZE }
  function RoundUp(a: nat): nat { RoundDown(Wrap(a + PGSIZE - 1)) }

  /** The test of one page: below ULIM, present, and with every bit of `perm`. */
  predicate Accessible(s: Phys, d: nat, pn: nat, perm: Flags) {
    && pn * PGSIZE < ULIM
    && Translate(s, d, pn).Some?
    && Has(Translate(s, d, pn).value.entry.flags, perm)
  }

  function FirstBad(s: Phys, d: nat, pn: nat, end: nat, perm: Flags): (bad: Option<nat>)
    ensures bad.None? <==> forall p :: pn <= p < end ==> Accessible(s, d, p, perm)
    ensures bad.Some? ==> pn <= bad.value < end && !Accessible(s, d, bad.value, perm)
    ensures bad.Some? ==> forall p :: pn <= p < bad.value ==> Accessible(s, d, p, perm)
    decreases end - pn
  {
    if pn >= end then None
    else if !Accessible(s, d, pn, perm) then Some(pn)
    else FirstBad(s, d, pn + 1, end, perm)
  }

  /** The loop's bound: the page after the range, if nothing wraps. */
  function EndPage(va: nat, len: nat): nat {
    PageNum(RoundUp(Wrap(va + len)))
  }

  /** The recorded fault address, or None for success, as user_mem_check computes it in 32 bits. */
  function Check(s: Phys, d: nat, va: nat, len: nat, perm: Flags): Option<nat> {
    var bad := FirstBad(s, d, PageNum(va), EndPage(va, len), perm);
    if bad.None? then None
    else if bad.value * PGSIZE < va then Some(va) else Some(bad.value * PGSIZE)
  }

  /** A byte of the range is accessible when its page is. */
  ghost predicate RangeAccessible(s: Phys, d: nat, va: nat, len: nat, perm: Flags) {
    forall a :: va <= a < va + len ==> Accessible(s, d, PageNum(a), perm)
  }

  predicate Wraps(va: nat, len: nat) {
    va + len + PGSIZE - 1 >= ADDRESSES
  }

  lemma PagesCovered(va: nat, len: nat)
    requires 0 < len && !Wraps(va, len)
    ensures EndPage(va, len) == PageNum(va + len - 1) + 1
  {
  }

  /** The empty range: the check looks at one page unless `va` begins a page or rounding wraps. */
  lemma EmptyRange(s: Phys, d: nat, va: nat, perm: Flags)
    requires va < ADDRESSES
    ensures Check(s, d, va, 0, perm) ==
      if Wraps(va, 0) || va % PGSIZE == 0 || Accessible(s, d, PageNum(va), perm) then None else Some(va)
  {
    if Wraps(va, 0) {
      assert EndPage(va, 0) == 0;
    } else if va % PGSIZE == 0 {
      assert EndPage(va, 0) == PageNum(va);
    } else {
      assert EndPage(va, 0) == PageNum(va) + 1;
    }
  }

  /** Without wrap-around the check of a range with bytes is exact, and a fault address is the first inaccessible byte.
      Of a range without bytes the check still looks at a page, unless `va` begins one. */
  lemma CheckExact(s: Phys, d: nat, va: nat, len: nat, perm: Flags)
    requires !Wraps(va, len)
    ensures var r := Check(s, d, va, len, perm);
      if len == 0 then
        r == if va % PGSIZE == 0 || Accessible(s, d, PageNum(va), perm) then None else Some(va)
      else
        && (r.None? <==> RangeAccessible(s, d, va, len, perm))
        && (r.Some? ==>
              && va <= r.value < va + len && !Accessible(s, d, PageNum(r.value), perm)
              && RangeAccessible(s, d, va, r.value - va, perm))
  {
    if len == 0 {
      EmptyRange(s, d, va, perm);
      return;
    }
    PagesCovered(va, len);
    var bad := FirstBad(s, d, PageNum(va), EndPage(va, len), perm);
    if bad.Some? {
      var a := if bad.value * PGSIZE < va then va else bad.value * PGSIZE;
      assert PageNum(a) == bad.value;
      assert va <= a < va + len;
    } else {
      forall a | va <= a < va + len ensures Accessible(s, d, PageNum(a), perm) {
        assert PageNum(va) <= PageNum(a) < PageNum(va + len - 1) + 1;
      }
    }
  }

  /** A range that wraps: at most the first page is looked at. */
  lemma WrappedRange(s: Phys, d: nat, va: nat, len: nat, perm: Flags)
    requires va < ADDRESSES && len < ADDRESSES && 0 < len && Wraps(va, len)
    ensures Check(s, d, va, len, perm) ==
      if EndPage(va, len) <= PageNum(va) || Accessible(s, d, PageNum(va), perm) then None else Some(va)
    ensures !RangeAccessible(s, d, va, len, perm)
  {
    var top := va + len - 1;
    assert !Accessible(s, d, PageNum(top), perm);
    if va + len < ADDRESSES {
      assert EndPage(va, len) == 0;
    } else {
      assert EndPage(va, len) <= PageNum(va) + 1;
    }
  }

  /** What a caller can look at before the call to know that the answer will be right. */
  predicate Reliable(s: Phys, d: nat, va: nat, len: nat, perm: Flags) {
    if len == 0 then Wraps(va, 0) || va % PGSIZE == 0 || Accessible(s, d, PageNum(va), perm)
    else Wraps(va, len) ==> PageNum(va) < EndPage(va, len) && !Accessible(s, d, PageNum(va), perm)
  }

  /** For every range of 32-bit numbers, the check answers "is every byte of the range accessible?" correctly
      exactly if the range is reliable. */
  lemma CheckCorrectIff(s: Phys, d: nat, va: nat, len: nat, perm: Flags)
    requires va < ADDRESSES && len < ADDRESSES
    ensures (Check(s, d, va, len, perm).None? <==> RangeAccessible(s, d, va, len, perm)) <==> Reliable(s, d, va, len, perm)
  {
    if len == 0 {
      EmptyRange(s, d, va, perm);
    } else if Wraps(va, len) {
      WrappedRange(s, d, va, len, perm);
    } else {
      CheckExact(s, d, va, len, perm);
    }
  }

  /** A range that wraps past zero is accepted without looking at a single page. */
  lemma WrapAccepted(s: Phys, d: nat, perm: Flags)
    ensures Check(s, d, PGSIZE, ADDRESSES - 1, perm) == None
    ensures !RangeAccessible(s, d, PGSIZE, ADDRESSES - 1, perm)
  {
    assert !Accessible(s, d, PageNum(ADDRESSES - 1), perm);
  }

  /** The empty range at address 1, with nothing mapped at page 0, is refused. */
  lemma EmptyRefused(s: Phys, d: nat, perm: Flags)
    requires Translate(s, d, 0) == None
    ensures Check(s, d, 1, 0, perm) == Some(1) && RangeAccessible(s, d, 1, 0, perm)
  {
    EmptyRange(s, d, 1, perm);
  }
}
