/** The bytes of a frame: 1024 little-endian words, each an entry's flags and, above them, its frame number. */
module FrameBytes {
  import opened Mmu
  import opened CowMemory
  import PT = PageTables

  function Bit(flags: Flags, mask: Flags, v: nat): nat {
    if flags & mask != 0 then v else 0
  }

  /** Bits 0 to 7 and 8 to 11 of a word. */
  function Low(flags: Flags): (b: Byte) {
    Bit(flags, 0x001, 1) + Bit(flags, 0x002, 2) + Bit(flags, 0x004, 4) + Bit(flags, 0x008, 8)
    + Bit(flags, 0x010, 16) + Bit(flags, 0x020, 32) + Bit(flags, 0x040, 64) + Bit(flags, 0x080, 128)
  }

  function Nibble(flags: Flags): (b: nat)
    ensures b < 16
  {
    Bit(flags, 0x100, 1) + Bit(flags, 0x200, 2) + Bit(flags, 0x400, 4) + Bit(flags, 0x800, 8)
  }

  /** Byte `j` of the word `e`. */
  function ByteOf(e: Entry, j: nat): (b: Byte) {
    if j == 0 then Low(e.flags)
    else if j == 1 then Nibble(e.flags) + e.frame % 16 * 16
    else if j == 2 then e.frame / 16 % 256
    else e.frame / 4096 % 256
  }

  function WordAt(words: seq<Entry>, i: nat): Entry {
    if i < |words| then words[i] else ABSENT
  }

  /** What a frame that holds these words reads as. */
  function Bytes(words: seq<Entry>): (page: Page)
    ensures forall k :: 0 <= k < PGSIZE ==> page[k] == ByteOf(WordAt(words, k / 4), k % 4)
  {
    seq(PGSIZE, k requires 0 <= k < PGSIZE => ByteOf(WordAt(words, k / 4), k % 4))
  }

  // ----- and back -----

  function Mask(b: bool, mask: Flags): Flags {
    if b then mask else 0
  }

  /** The four bits of `n`, with the lowest at `m0`. */
  function Four(n: nat, m0: Flags, m1: Flags, m2: Flags, m3: Flags): Flags {
    Mask(n % 2 == 1, m0) | Mask(n / 2 % 2 == 1, m1) | Mask(n / 4 % 2 == 1, m2) | Mask(n / 8 % 2 == 1, m3)
  }

  function FlagsOf(b: Byte, n: nat): Flags {
    Four(b % 16, 0x001, 0x002, 0x004, 0x008) | Four(b / 16, 0x010, 0x020, 0x040, 0x080) | Four(n, 0x100, 0x200, 0x400, 0x800)
  }

  /** The word with these four bytes. */
  function WordOf(b0: Byte, b1: Byte, b2: Byte, b3: Byte): Entry {
    Entry(b1 / 16 + b2 * 16 + b3 * 4096, FlagsOf(b0, b1 % 16))
  }

  lemma FourBack(n: nat)
    requires n < 16
    ensures var f := Four(n, 0x001, 0x002, 0x004, 0x008);
      f & 0xFF0 == 0 && Bit(f, 0x001, 1) + Bit(f, 0x002, 2) + Bit(f, 0x004, 4) + Bit(f, 0x008, 8) == n
    ensures var f := Four(n, 0x010, 0x020, 0x040, 0x080);
      f & 0xF0F == 0 && Bit(f, 0x010, 16) + Bit(f, 0x020, 32) + Bit(f, 0x040, 64) + Bit(f, 0x080, 128) == 16 * n
    ensures var f := Four(n, 0x100, 0x200, 0x400, 0x800);
      f & 0x0FF == 0 && Bit(f, 0x100, 1) + Bit(f, 0x200, 2) + Bit(f, 0x400, 4) + Bit(f, 0x800, 8) == n
  {
    Binary(n);
  }

  lemma Binary(n: nat)
    requires n < 16
    ensures n == (if n % 2 == 1 then 1 else 0) + (if n / 2 % 2 == 1 then 2 else 0)
      + (if n / 4 % 2 == 1 then 4 else 0) + (if n / 8 % 2 == 1 then 8 else 0)
  {
  }

  /** Bits outside a mask do not show through it. */
  lemma Apart(f: Flags, g: Flags, h: Flags)
    requires f & 0xFF0 == 0 && g & 0xF0F == 0 && h & 0x0FF == 0
    ensures var x := f | g | h;
      && x & 0x001 == f & 0x001 && x & 0x002 == f & 0x002 && x & 0x004 == f & 0x004 && x & 0x008 == f & 0x008
      && x & 0x010 == g & 0x010 && x & 0x020 == g & 0x020 && x & 0x040 == g & 0x040 && x & 0x080 == g & 0x080
      && x & 0x100 == h & 0x100 && x & 0x200 == h & 0x200 && x & 0x400 == h & 0x400 && x & 0x800 == h & 0x800
  {
  }

  lemma SumApart(f: Flags, g: Flags, h: Flags)
    requires f & 0xFF0 == 0 && g & 0xF0F == 0 && h & 0x0FF == 0
    ensures Low(f | g | h) == Bit(f, 0x001, 1) + Bit(f, 0x002, 2) + Bit(f, 0x004, 4) + Bit(f, 0x008, 8)
      + (Bit(g, 0x010, 16) + Bit(g, 0x020, 32) + Bit(g, 0x040, 64) + Bit(g, 0x080, 128))
    ensures Nibble(f | g | h) == Bit(h, 0x100, 1) + Bit(h, 0x200, 2) + Bit(h, 0x400, 4) + Bit(h, 0x800, 8)
  {
    Apart(f, g, h);
  }

  lemma FlagsBack(b: Byte, n: nat)
    requires n < 16
    ensures Low(FlagsOf(b, n)) == b && Nibble(FlagsOf(b, n)) == n
  {
    hide Four, Low, Nibble, Bit;
    FourBack(b % 16);
    FourBack(b / 16);
    FourBack(n);
    SumApart(Four(b % 16, 0x001, 0x002, 0x004, 0x008), Four(b / 16, 0x010, 0x020, 0x040, 0x080), Four(n, 0x100, 0x200, 0x400, 0x800));
  }

  lemma WordBack(b0: Byte, b1: Byte, b2: Byte, b3: Byte)
    ensures var e := WordOf(b0, b1, b2, b3); ByteOf(e, 0) == b0 && ByteOf(e, 1) == b1 && ByteOf(e, 2) == b2 && ByteOf(e, 3) == b3
  {
    hide Low, Nibble, FlagsOf;
    FlagsBack(b0, b1 % 16);
    FrameBack(b1 / 16, b2, b3);
    assert b1 % 16 + b1 / 16 * 16 == b1;
  }

  lemma FrameBack(h: nat, b2: Byte, b3: Byte)
    requires h < 16
    ensures var frame := h + b2 * 16 + b3 * 4096; frame % 16 == h && frame / 16 % 256 == b2 && frame / 4096 % 256 == b3
  {
    var frame := h + b2 * 16 + b3 * 4096;
    assert frame / 16 == b2 + b3 * 256;
    assert frame / 4096 == b3;
  }

  // ----- stores -----

  /** The word `e` after a store to its byte `j`. */
  function Patched(e: Entry, j: nat, v: Byte): Entry {
    WordOf(if j == 0 then v else ByteOf(e, 0), if j == 1 then v else ByteOf(e, 1),
           if j == 2 then v else ByteOf(e, 2), if j == 3 then v else ByteOf(e, 3))
  }

  lemma PatchedBytes(e: Entry, j: nat, v: Byte, i: nat)
    requires i < 4
    ensures ByteOf(Patched(e, j, v), i) == if i == j then v else ByteOf(e, i)
  {
    hide ByteOf, WordOf;
    WordBack(if j == 0 then v else ByteOf(e, 0), if j == 1 then v else ByteOf(e, 1),
             if j == 2 then v else ByteOf(e, 2), if j == 3 then v else ByteOf(e, 3));
  }

  /** Physical memory after a store to byte `off` of frame `f`: one word changes. */
  function Poked(s: PT.Phys, f: nat, off: nat, v: Byte): PT.Phys {
    PT.Store(s, f, off / 4, Patched(PT.Word(s, f, off / 4), off % 4, v))
  }

  /** What the bytes of frame `f` are. */
  function FrameAt(s: PT.Phys, f: nat): Page {
    if f < |s.mem| then Bytes(s.mem[f]) else ZeroFrame()
  }

  /** A store changes one byte of one frame. */
  lemma PokedBytes(s: PT.Phys, f: nat, off: nat, v: Byte)
    requires f < |s.mem| && |s.mem[f]| == NPTENTRIES && off < PGSIZE
    ensures FrameAt(Poked(s, f, off, v), f) == Poke(FrameAt(s, f), off, v)
    ensures forall g: nat :: g != f ==> FrameAt(Poked(s, f, off, v), g) == FrameAt(s, g)
  {
    var s' := Poked(s, f, off, v);
    forall k | 0 <= k < PGSIZE ensures FrameAt(s', f)[k] == Poke(FrameAt(s, f), off, v)[k] {
      PatchedBytes(s.mem[f][off / 4], off % 4, v, k % 4);
      OneByte(k, off);
      hide ByteOf, Patched;
    }
  }

  lemma OneByte(k: nat, off: nat)
    ensures k == off <==> k / 4 == off / 4 && k % 4 == off % 4
  {
  }
}
