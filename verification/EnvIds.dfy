/** Environment identifiers: how env_alloc stamps generations, and when a number comes round again. */
module EnvIds {
  import opened Words

  const NENV: nat := 1024

  /** `x & (NENV - 1)` and `x & ~(NENV - 1)`. */
  function LowBits(x: int): nat { x % 1024 }
  function HighBits(x: int): int { x - x % 1024 }

  /** The id env_alloc gives the environment in `slot`, from the id the slot had before; envid_t is an int32_t and the
      increment wraps. The generation's low ten bits are clear, so `generation | slot` is their sum. */
  function NextId(id: int, slot: nat): int {
    var generation := HighBits(Wrap32(id + 4096));
    (if generation <= 0 then 4096 else generation) + slot
  }

  /** The id in `slot` after `n` allocations there; env_init sets it to 0. */
  function IdAfter(n: nat, slot: nat): int {
    if n == 0 then 0 else NextId(IdAfter(n - 1, slot), slot)
  }

  /** The n-th id of a slot in closed form: generations run through 4096, 8192, ..., 2^31 - 4096 and start over. */
  lemma {:induction false} IdClosedForm(n: nat, slot: nat)
    requires n > 0 && slot < NENV
    ensures IdAfter(n, slot) == ((n - 1) % 524287 + 1) * 4096 + slot
  {
    if n > 1 {
      IdClosedForm(n - 1, slot);
      NextGeneration((n - 2) % 524287 + 1, slot);
      NextTurn(n);
    }
  }

  lemma NextGeneration(g: nat, slot: nat)
    requires 1 <= g <= 524287 && slot < NENV
    ensures NextId(g * 4096 + slot, slot) == (if g == 524287 then 1 else g + 1) * 4096 + slot
  {
    var x := g * 4096 + slot + 4096;
    assert g < 524287 ==> Wrap32(x) == x && HighBits(x) == (g + 1) * 4096;
    assert g == 524287 ==> Wrap32(x) < 0;
  }

  lemma NextTurn(n: nat)
    requires n > 1
    ensures (n - 1) % 524287 == if (n - 2) % 524287 == 524286 then 0 else (n - 2) % 524287 + 1
  {
  }

  lemma GenerationRange(n: nat)
    requires n > 0
    ensures 1 <= (n - 1) % 524287 + 1 <= 524287
  {
  }

  lemma LowBitsOf(g: nat, slot: nat)
    requires slot < NENV
    ensures LowBits(g * 4096 + slot) == slot
  {
    LowBitsOfMultiple(4 * g, slot);
  }

  lemma LowBitsOfMultiple(q: nat, slot: nat)
    requires slot < NENV
    ensures LowBits(1024 * q + slot) == slot
  {
  }

  /** Every issued id is a positive int32 whose low ten bits are its slot. */
  lemma IdWellFormed(n: nat, slot: nat)
    requires n > 0 && slot < NENV
    ensures 0 < IdAfter(n, slot) < 0x8000_0000 && LowBits(IdAfter(n, slot)) == slot
  {
    IdClosedForm(n, slot);
    GenerationRange(n);
    hide *;
    LowBitsOf((n - 1) % 524287 + 1, slot);
  }

  /** Two allocations issue one id exactly if they are of one slot, a multiple of 2^19 - 1 allocations apart. */
  lemma ReissuedIff(m: nat, slot: nat, n: nat, slot': nat)
    requires m > 0 && n > 0 && slot < NENV && slot' < NENV
    ensures IdAfter(m, slot) == IdAfter(n, slot') <==> slot == slot' && (m - n) % 524287 == 0
  {
    IdWellFormed(m, slot);
    IdWellFormed(n, slot');
    IdClosedForm(m, slot);
    IdClosedForm(n, slot');
    SameRemainder(m, n);
  }

  lemma SameRemainder(m: nat, n: nat)
    requires m > 0 && n > 0
    ensures (m - 1) % 524287 == (n - 1) % 524287 <==> (m - n) % 524287 == 0
  {
    var q, r := (m - 1) / 524287, (m - 1) % 524287;
    var q', r' := (n - 1) / 524287, (n - 1) % 524287;
    assert m - n == (q - q') * 524287 + (r - r');
  }
}
