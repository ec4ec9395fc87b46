/** The bounded buffer behind vsnprintf, printnum writing through it, and memmove. */
module Buffers {
  import opened Numbers
  import opened Options

  function Min(a: int, b: int): int { if a < b then a else b }

  /** What memory holds at `base` and after, once the first `room` characters of `out` are there. */
  function Clipped(before: seq<char>, base: nat, room: nat, out: string): (after: seq<char>)
    requires base + room <= |before|
    ensures |after| == |before|
  {
    var k := Min(|out|, room);
    before[..base] + out[..k] + before[base + k..]
  }

  /** struct sprintbuf over memory `mem`: the next place, the place for the NUL, and how much was asked for. */
  class SprintBuf {
    const mem: array<char>
    const start: nat
    const ebuf: nat
    var buf: nat
    var cnt: nat

    /** Everything handed to sprintputch, and what memory held before. */
    ghost var out: string
    ghost const before: seq<char>

    ghost predicate Valid()
      reads this, mem
    {
      && start <= buf <= ebuf < mem.Length && |before| == mem.Length
      && cnt == |out| && buf == start + Min(|out|, ebuf - start)
      && mem[..] == Clipped(before, start, ebuf - start, out)
    }

    constructor (mem: array<char>, start: nat, n: nat)
      requires 1 <= n && start + n <= mem.Length
      ensures Valid() && fresh(this) && this.mem == mem && this.start == start && ebuf == start + n - 1
      ensures out == [] && before == mem[..]
    {
      this.mem, this.start, this.ebuf := mem, start, start + n - 1;
      buf, cnt, out, before := start, 0, [], mem[..];
    }

    /** sprintputch */
    method Putch(ch: char)
      requires Valid()
      modifies this, mem
      ensures Valid() && out == old(out) + [ch]
    {
      cnt := cnt + 1;
      out := out + [ch];
      if buf < ebuf {
        mem[buf] := ch;
        buf := buf + 1;
      }
    }

    /** What vprintfmt makes of it, character by character. */
    method PutAll(output: string)
      requires Valid()
      modifies this, mem
      ensures Valid() && out == old(out) + output
    {
      var i := 0;
      while i < |output|
        invariant i <= |output| && Valid() && out == old(out) + output[..i]
      {
        Putch(output[i]);
        i := i + 1;
      }
    }

    /** `*b.buf = 0` */
    method Terminate()
      requires Valid()
      modifies mem
      ensures mem[..] == Terminated(before, start, ebuf - start, out)
    {
      ClippedEnd(before, start, ebuf - start, out);
      hide Clipped, Terminated;
      mem[buf] := '\0';
      assert mem[..] == old(mem[..])[buf := '\0'];
    }

    /** printnum's padding loop: `width` counts down before it is compared. */
    method Pad(width: int, padc: char)
      requires Valid()
      modifies this, mem
      ensures Valid() && out == old(out) + Repeat(padc, width - 1)
    {
      var w := width - 1;
      ghost var done := 0;
      while w > 0
        invariant Valid() && done >= 0 && (width > 1 ==> w == width - 1 - done >= 0) && (width <= 1 ==> done == 0 && w == width - 1)
        invariant out == old(out) + Repeat(padc, done)
        decreases w
      {
        RepeatMore(padc, done);
        Putch(padc);
        done := done + 1;
        w := w - 1;
      }
    }

    /** printnum through sprintputch. */
    method PrintNumber(num: nat, base: nat, width: int, padc: char)
      requires Valid() && 2 <= base <= 16
      modifies this, mem
      ensures Valid() && out == old(out) + PrintNum(num, base, width, padc)
      decreases num
    {
      PrintNumUnfold(num, base, width, padc);
      hide *;
      if num >= base {
        PrintNumber(num / base, base, width - 1, padc);
      } else {
        Pad(width, padc);
      }
      Putch(Digit(num % base));
    }
  }

  lemma {:induction false} RepeatMore(c: char, n: nat)
    ensures Repeat(c, n + 1) == Repeat(c, n) + [c]
  {
    assert Repeat(c, n + 1) == Repeat(c, n) + [c];
  }

  /** Memory with the first `room` characters of `out` at `base`, then a NUL. */
  function Terminated(before: seq<char>, base: nat, room: nat, out: string): seq<char>
    requires base + room < |before|
  {
    var k := Min(|out|, room);
    before[..base] + out[..k] + ['\0'] + before[base + k + 1..]
  }

  lemma ClippedEnd(before: seq<char>, base: nat, room: nat, out: string)
    requires base + room < |before|
    ensures Clipped(before, base, room, out)[base + Min(|out|, room) := '\0'] == Terminated(before, base, room, out)
  {
  }

  const E_INVAL: int := 3

  /** vsnprintf, whose vprintfmt hands `out` to sprintputch: the NUL-terminated prefix that fits is left, the full
      length is returned, and no other memory changes. None stands for a NULL buffer. */
  method Vsnprintf(mem: array<char>, buf: Option<nat>, n: int, out: string) returns (r: int)
    requires buf.Some? && n > 0 ==> buf.value + n <= mem.Length
    modifies mem
    ensures r == if buf.None? || n < 1 then -E_INVAL else |out|
    ensures mem[..] == if buf.None? || n < 1 then old(mem[..]) else Terminated(old(mem[..]), buf.value, n - 1, out)
  {
    hide Terminated, Clipped;
    if buf == None || n < 1 {
      return -E_INVAL;
    }
    var b := new SprintBuf(mem, buf.value, n);
    b.PutAll(out);
    assert b.out == out;
    b.Terminate();
    return b.cnt;
  }

  /** Position by position, memory after a move of characters to [lo, hi) from `shift` further on. */
  predicate Moved(now: seq<char>, was: seq<char>, lo: nat, hi: nat, shift: int) {
    && |now| == |was|
    && forall i {:trigger now[i]} :: 0 <= i < |was| ==>
         if lo <= i < hi then 0 <= i + shift < |was| && now[i] == was[i + shift] else now[i] == was[i]
  }

  lemma MovedSlices(now: seq<char>, was: seq<char>, dst: nat, src: nat, n: nat)
    requires dst + n <= |was| && src + n <= |was| && Moved(now, was, dst, dst + n, src - dst)
    ensures now[dst..dst + n] == was[src..src + n] && now[..dst] == was[..dst] && now[dst + n..] == was[dst + n..]
  {
    var a, b := now[dst..dst + n], was[src..src + n];
    forall i | 0 <= i < n ensures a[i] == b[i] {
      assert a[i] == now[dst + i];
    }
  }

  /** The C version of memmove: right for any overlap. */
  method Memmove(mem: array<char>, dst: nat, src: nat, n: nat)
    requires dst + n <= mem.Length && src + n <= mem.Length
    modifies mem
    ensures mem[dst..dst + n] == old(mem[src..src + n])
    ensures mem[..dst] == old(mem[..dst]) && mem[dst + n..] == old(mem[dst + n..])
  {
    var s, d, left := src, dst, n;
    ghost var was := mem[..];
    ghost var shift := src - dst;
    if s < d && s + n > d {
      s := s + n;
      d := d + n;
      while left > 0
        invariant 0 <= left <= n && s == src + left && d == dst + left
        invariant Moved(mem[..], was, d, dst + n, shift)
      {
        left := left - 1;
        d := d - 1;
        s := s - 1;
        assert mem[..][s] == was[s] && s == d + shift;
        mem[d] := mem[s];
      }
    } else {
      while left > 0
        invariant 0 <= left <= n && s == src + (n - left) && d == dst + (n - left)
        invariant Moved(mem[..], was, dst, d, shift)
      {
        left := left - 1;
        assert mem[..][s] == was[s] && s == d + shift;
        mem[d] := mem[s];
        d := d + 1;
        s := s + 1;
      }
    }
    MovedSlices(mem[..], was, dst, src, n);
  }
}
