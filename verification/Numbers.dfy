/** printnum and strtol: what one prints, the other reads back. */
module Numbers {
  import opened Words

  function Digit(d: nat): char
    requires d < 16
  {
    "0123456789abcdef"[d]
  }

  function Repeat(c: char, n: int): (s: string)
    ensures |s| == if n > 0 then n else 0
    ensures forall i :: 0 <= i < |s| ==> s[i] == c
  {
    if n <= 0 then [] else [c] + Repeat(c, n - 1)
  }

  /** The digits of `num`, most significant first. */
  function Digits(num: nat, base: nat): (s: string)
    requires 2 <= base <= 16
    ensures |s| > 0
  {
    (if num >= base then Digits(num / base, base) else []) + [Digit(num % base)]
  }

  /** What printnum passes to putch: the leading digits at one column less, or else the padding, then one digit. */
  function PrintNum(num: nat, base: nat, width: int, padc: char): string
    requires 2 <= base <= 16
    decreases num
  {
    (if num >= base then PrintNum(num / base, base, width - 1, padc) else Repeat(padc, width - 1)) + [Digit(num % base)]
  }

  lemma Divides(num: nat, base: nat)
    requires 2 <= base <= 16 && num >= base
    ensures num / base < num && num % base < base && num == num / base * base + num % base
  {
  }

  lemma DigitsUnfold(num: nat, base: nat)
    requires 2 <= base <= 16 && num >= base
    ensures Digits(num, base) == Digits(num / base, base) + [Digit(num % base)]
  {
  }

  lemma PrintNumUnfold(num: nat, base: nat, width: int, padc: char)
    requires 2 <= base <= 16
    ensures num % base < 16 && (num >= base ==> num / base < num)
    ensures PrintNum(num, base, width, padc) ==
      (if num >= base then PrintNum(num / base, base, width - 1, padc) else Repeat(padc, width - 1)) + [Digit(num % base)]
  {
  }

  /** Padding to the width, then the digits. */
  lemma {:induction false} PrintNumPads(num: nat, base: nat, width: int, padc: char)
    requires 2 <= base <= 16
    ensures var digits := Digits(num, base);
      && PrintNum(num, base, width, padc) == Repeat(padc, width - |digits|) + digits
      && |PrintNum(num, base, width, padc)| == if width > |digits| then width else |digits|
    decreases num
  {
    PrintNumUnfold(num, base, width, padc);
    if num >= base {
      DigitsUnfold(num, base);
      hide *;
      PrintNumPads(num / base, base, width - 1, padc);
      PadsMore(padc, width, Digits(num / base, base), Digit(num % base));
    } else {
      SmallNumber(num, base);
    }
  }

  lemma PadsMore(padc: char, width: int, rest: string, last: char)
    ensures Repeat(padc, width - 1 - |rest|) + rest + [last] == Repeat(padc, width - |rest + [last]|) + (rest + [last])
  {
    assert Repeat(padc, width - 1 - |rest|) + rest + [last] == Repeat(padc, width - 1 - |rest|) + (rest + [last]);
  }

  lemma SmallNumber(num: nat, base: nat)
    requires num < base <= 16 && base >= 2
    ensures num % base == num && Digits(num, base) == [Digit(num)] && 0 * base + num == num
  {
    SmallRemainder(num, base);
    hide Digit;
  }

  lemma SmallRemainder(num: nat, base: nat)
    requires num < base
    ensures num % base == num
  {
  }

  // ----- strtol -----

  /** The string's characters, with the terminating NUL. */
  function At(s: string, i: nat): char {
    if i < |s| then s[i] else '\0'
  }

  /** A digit's value in bases up to 36, or None. */
  datatype Parsed = NoDigit | Value(d: nat)

  function DigitOf(c: char): Parsed {
    if '0' <= c <= '9' then Value((c - '0') as nat)
    else if 'a' <= c <= 'z' then Value((c - 'a') as nat + 10)
    else if 'A' <= c <= 'Z' then Value((c - 'A') as nat + 10)
    else NoDigit
  }

  predicate IsDigit(c: char, base: nat) {
    DigitOf(c).Value? && DigitOf(c).d < base
  }

  function SkipBlanks(s: string, i: nat): (r: nat)
    requires i <= |s|
    ensures i <= r <= |s|
    decreases |s| - i
  {
    if At(s, i) == ' ' || At(s, i) == '\t' then SkipBlanks(s, i + 1) else i
  }

  datatype Result = Result(val: int, end: nat)

  /** The digit loop from position `i` on. */
  function Accumulate(s: string, i: nat, base: nat, val: int): (r: Result)
    requires i <= |s|
    ensures i <= r.end <= |s|
    decreases |s| - i
  {
    if IsDigit(At(s, i), base) then Accumulate(s, i + 1, base, Wrap32(val * base + DigitOf(At(s, i)).d)) else Result(val, i)
  }

  predicate HexPrefix(s: string, i: nat) {
    At(s, i) == '0' && At(s, i + 1) == 'x'
  }

  /** The base that counts and where the digits begin. */
  datatype Prefix = Prefix(base: nat, start: nat)

  function BasePrefix(s: string, i: nat, base: nat): (p: Prefix)
    requires i <= |s|
    ensures i <= p.start <= |s|
  {
    if (base == 0 || base == 16) && HexPrefix(s, i) then Prefix(16, i + 2)
    else if base == 0 && At(s, i) == '0' then Prefix(8, i + 1)
    else if base == 0 then Prefix(10, i)
    else Prefix(base, i)
  }

  function StrtolSpec(s: string, base: nat): Result {
    var blank := SkipBlanks(s, 0);
    var signed := At(s, blank) == '+' || At(s, blank) == '-';
    var p := BasePrefix(s, if signed then blank + 1 else blank, base);
    var r := Accumulate(s, p.start, p.base, 0);
    if At(s, blank) == '-' then Result(Wrap32(-r.val), r.end) else r
  }

  /** The loop over leading blanks. */
  method GobbleBlanks(s: string) returns (i: nat)
    ensures i == SkipBlanks(s, 0)
  {
    i := 0;
    while At(s, i) == ' ' || At(s, i) == '\t'
      invariant i <= |s| && SkipBlanks(s, i) == SkipBlanks(s, 0)
      decreases |s| - i
    {
      i := i + 1;
    }
  }

  /** The loop over digits. */
  method ReadDigits(s: string, start: nat, radix: nat) returns (val: int, i: nat)
    requires start <= |s|
    ensures Result(val, i) == Accumulate(s, start, radix, 0)
  {
    val, i := 0, start;
    while true
      invariant start <= i <= |s| && Accumulate(s, i, radix, val) == Accumulate(s, start, radix, 0)
      decreases |s| - i
    {
      var dig;
      var c := At(s, i);
      if '0' <= c <= '9' {
        dig := (c - '0') as nat;
      } else if 'a' <= c <= 'z' {
        dig := (c - 'a') as nat + 10;
      } else if 'A' <= c <= 'Z' {
        dig := (c - 'A') as nat + 10;
      } else {
        break;
      }
      if dig >= radix {
        break;
      }
      i, val := i + 1, Wrap32(val * radix + dig);
    }
  }

  /** strtol, with its result and *endptr. */
  method Strtol(s: string, base: nat) returns (result: int, end: nat)
    ensures Result(result, end) == StrtolSpec(s, base)
  {
    hide SkipBlanks, Accumulate, Wrap32;
    var neg, radix := false, base;
    var i := GobbleBlanks(s);
    if At(s, i) == '+' {
      i := i + 1;
    } else if At(s, i) == '-' {
      i, neg := i + 1, true;
    }
    if (radix == 0 || radix == 16) && At(s, i) == '0' && At(s, i + 1) == 'x' {
      i, radix := i + 2, 16;
    } else if radix == 0 && At(s, i) == '0' {
      i, radix := i + 1, 8;
    } else if radix == 0 {
      radix := 10;
    }
    var val;
    val, end := ReadDigits(s, i, radix);
    return if neg then Wrap32(-val) else val, end;
  }

  // ----- what strtol reads -----

  /** Letters of either case count on from ten. */
  lemma DigitValues(c: char, d: nat)
    ensures DigitOf(c) == Value(d) <==>
      || (d < 10 && c as int == 48 + d)
      || (10 <= d < 36 && (c as int == 97 + (d - 10) || c as int == 65 + (d - 10)))
  {
  }

  /** The value of a string of digits: each counts `base` times the next. */
  function ValueOf(t: string, base: nat): nat {
    if t == [] then 0
    else
      var last := DigitOf(t[|t| - 1]);
      ValueOf(t[..|t| - 1], base) * base + if last.Value? then last.d else 0
  }

  predicate AllDigits(t: string, base: nat) {
    forall k :: 0 <= k < |t| ==> IsDigit(t[k], base)
  }

  lemma {:induction false} ReadsValue(s: string, i: nat, t: string, base: nat)
    requires i + |t| <= |s| && s[i..i + |t|] == t && AllDigits(t, base)
    ensures Accumulate(s, i, base, 0) == Accumulate(s, i + |t|, base, Wrap32(ValueOf(t, base)))
    decreases |t|
  {
    if t != [] {
      var n := |t| - 1;
      assert t[..n] == s[i..i + n] && t[n] == s[i + n] && IsDigit(t[n], base);
      ReadsValue(s, i, t[..n], base);
      var v := ValueOf(t[..n], base);
      hide Wrap32, SkipBlanks;
      LongTwice(v);
      LongStep(Wrap32(v), v, base, DigitOf(t[n]).d);
    }
  }

  lemma LongTwice(x: int)
    ensures Wrap32(Wrap32(x)) == Wrap32(x)
  {
  }

  /** The prefixes that strtol takes for a requested base, and the base of the digits behind them. An unprefixed number in
      base 0 is octal if it begins with a zero. */
  predicate Prefixed(prefix: string, t: string, base: nat, radix: nat) {
    || (prefix == "0x" && radix == 16 && (base == 0 || base == 16))
    || (prefix == "0" && radix == 8 && base == 0 && (t == [] || t[0] != 'x'))
    || (prefix == "" && radix == 10 && base == 0 && (t == [] || t[0] != '0'))
    || (prefix == "" && radix == base && base != 0 && (base != 16 || |t| < 2 || t[0] != '0' || t[1] != 'x'))
  }

  /** A number as strtol takes it apart: blanks, a sign, a prefix, digits, and something that is no digit. */
  datatype Literal = Literal(blanks: string, sign: string, prefix: string, digits: string, rest: string) {
    function Text(): (s: string)
      ensures |s| == |blanks| + |sign| + |prefix| + |digits| + |rest|
    {
      blanks + (sign + (prefix + (digits + rest)))
    }

    predicate Valid(base: nat, radix: nat) {
      && (forall k :: 0 <= k < |blanks| ==> blanks[k] == ' ' || blanks[k] == '\t')
      && (sign == "" || sign == "+" || sign == "-")
      && AllDigits(digits, radix) && Prefixed(prefix, digits + rest, base, radix)
      && (rest != [] ==> !IsDigit(rest[0], radix))
      // where the sign, the prefix and the digits are missing, the rest must not look like them
      && (sign == "" && prefix == "" && digits == [] && rest != [] ==> rest[0] !in "+- \t")
    }
  }

  // ----- the round trip -----

  /** Appending a digit goes as well on the 32-bit value as on the number itself. */
  lemma LongStep(val: int, x: int, base: nat, d: nat)
    requires Wrap32(val) == Wrap32(x)
    ensures Wrap32(val * base + d) == Wrap32(x * base + d)
  {
    Congruent(val, x);
    var k := (val - x) / 0x1_0000_0000;
    assert val == x + k * 0x1_0000_0000;
    assert val * base + d == x * base + d + (k * base) * 0x1_0000_0000;
    Shifted(x * base + d, k * base);
  }

  lemma Congruent(a: int, b: int)
    requires Wrap32(a) == Wrap32(b)
    ensures (a - b) % 0x1_0000_0000 == 0
  {
  }

  lemma Shifted(x: int, k: int)
    ensures Wrap32(x + k * 0x1_0000_0000) == Wrap32(x)
  {
  }

  lemma DigitRoundTrip(d: nat, base: nat)
    requires d < base <= 16
    ensures IsDigit(Digit(d), base) && DigitOf(Digit(d)).d == d
    ensures !('A' <= Digit(d) <= 'Z') && (Digit(d) == '0' <==> d == 0) && Digit(d) != 'x'
  {
  }

  lemma AccumulateStep(s: string, i: nat, base: nat, val: int, d: nat)
    requires i < |s| && d < base <= 16 && s[i] == Digit(d)
    ensures Accumulate(s, i, base, val) == Accumulate(s, i + 1, base, Wrap32(val * base + d))
  {
    DigitRoundTrip(d, base);
  }

  /** Reading the digits of `num`, wherever they stand in a string, makes the number's low 32 bits. */
  lemma {:induction false} ReadsDigits(s: string, i: nat, num: nat, base: nat)
    requires 2 <= base <= 16
    requires i + |Digits(num, base)| <= |s| && s[i..i + |Digits(num, base)|] == Digits(num, base)
    ensures Accumulate(s, i, base, 0) == Accumulate(s, i + |Digits(num, base)|, base, Wrap32(num))
    decreases num, 0
  {
    if num >= base {
      Divides(num, base);
      DigitsUnfold(num, base);
      hide *;
      ReadsLonger(s, i, num / base, num % base, base);
    } else {
      SmallNumber(num, base);
      hide Accumulate, Wrap32, Digits, Digit;
      AccumulateStep(s, i, base, 0, num);
    }
  }

  lemma ReadsLonger(s: string, i: nat, q: nat, d: nat, base: nat)
    requires d < base <= 16 && 2 <= base && d < 16
    requires i + |Digits(q, base)| + 1 <= |s| && s[i..i + |Digits(q, base)| + 1] == Digits(q, base) + [Digit(d)]
    ensures Accumulate(s, i, base, 0) == Accumulate(s, i + |Digits(q, base)| + 1, base, Wrap32(q * base + d))
    decreases q, 1
  {
    hide *;
    Ends(s, i, Digits(q, base), Digit(d));
    ReadsDigits(s, i, q, base);
    NextDigit(s, i + |Digits(q, base)|, q, d, base);
  }

  lemma Ends(s: string, i: nat, front: string, last: char)
    requires i + |front| + 1 <= |s| && s[i..i + |front| + 1] == front + [last]
    ensures s[i..i + |front|] == front && s[i + |front|] == last
  {
    var t := s[i..i + |front| + 1];
    assert s[i..i + |front|] == t[..|front|];
    assert s[i + |front|] == t[|front|];
  }

  lemma NextDigit(s: string, i: nat, q: nat, d: nat, base: nat)
    requires i < |s| && d < base <= 16 && s[i] == Digit(d)
    ensures Accumulate(s, i, base, Wrap32(q)) == Accumulate(s, i + 1, base, Wrap32(q * base + d))
  {
    AccumulateStep(s, i, base, Wrap32(q), d);
    LongTwice(q);
    LongStep(Wrap32(q), q, base, d);
  }

  lemma {:induction false} SkipsPadding(s: string, i: nat, n: nat)
    requires i + n <= |s| && forall k :: i <= k < i + n ==> s[k] == ' ' || s[k] == '\t'
    requires At(s, i + n) != ' ' && At(s, i + n) != '\t'
    ensures SkipBlanks(s, i) == i + n
    decreases n
  {
    if n > 0 {
      SkipsPadding(s, i + 1, n - 1);
    }
  }

  lemma {:induction false} ReadsZeros(s: string, i: nat, n: nat, base: nat)
    requires i + n <= |s| && base >= 2 && forall k :: i <= k < i + n ==> s[k] == '0'
    ensures Accumulate(s, i, base, 0) == Accumulate(s, i + n, base, 0)
    decreases n
  {
    if n > 0 {
      ReadsZeros(s, i + 1, n - 1, base);
    }
  }

  /** The first digit is no blank, no sign, and starts no prefix. */
  lemma {:induction false} DigitsAreDigits(num: nat, base: nat)
    requires 2 <= base <= 16
    ensures forall k :: 0 <= k < |Digits(num, base)| ==> IsDigit(Digits(num, base)[k], base) && Digits(num, base)[k] != 'x'
    decreases num
  {
    if num >= base {
      Divides(num, base);
      DigitRoundTrip(num % base, base);
      DigitsUnfold(num, base);
      hide *;
      DigitsAreDigits(num / base, base);
    } else {
      SmallNumber(num, base);
      DigitRoundTrip(num, base);
    }
  }

  /** What is printed is in lower case, and does not begin with a zero unless that is all of it. */
  lemma {:induction false} PlainDigits(num: nat, base: nat)
    requires 2 <= base <= 16
    ensures var s := Digits(num, base);
      (forall k :: 0 <= k < |s| ==> !('A' <= s[k] <= 'Z')) && (s[0] == '0' <==> num == 0) && (num < base ==> |s| == 1)
    decreases num
  {
    DigitRoundTrip(num % base, base);
    if num >= base {
      Divides(num, base);
      DigitsUnfold(num, base);
      hide *;
      PlainDigits(num / base, base);
      Positive(num, base);
    } else {
      SmallNumber(num, base);
    }
  }

  lemma Positive(num: nat, base: nat)
    requires 2 <= base <= num
    ensures num / base > 0 && num > 0
  {
  }

  predicate Padded(padc: char, width: int, num: nat, base: nat)
    requires 2 <= base <= 16
  {
    padc == ' ' || padc == '0' || width <= |Digits(num, base)|
  }

  lemma PaddingAt(num: nat, base: nat, width: int, padc: char)
    requires 2 <= base <= 16
    ensures var digits := Digits(num, base); var s := PrintNum(num, base, width, padc);
      && |digits| <= |s| && s[|s| - |digits|..] == digits
      && (forall k :: 0 <= k < |s| - |digits| ==> s[k] == padc)
      && (width <= |digits| ==> s == digits)
  {
    PrintNumPads(num, base, width, padc);
  }

  lemma AtEnd(s: string, base: nat, val: int)
    ensures Accumulate(s, |s|, base, val) == Result(val, |s|)
  {
  }

  /** A string of digits, none of them an `x`, is read as it stands. */
  lemma PlainPrefix(s: string, base: nat)
    requires 2 <= base <= 16 && s != [] && forall k :: 0 <= k < |s| ==> IsDigit(s[k], base) && s[k] != 'x'
    ensures StrtolSpec(s, base) == Accumulate(s, 0, base, 0)
  {
    assert IsDigit(s[0], base);
    assert At(s, 1) != 'x';
  }

  /** Leading blanks are skipped. */
  lemma BlankPrefix(s: string, n: nat, base: nat)
    requires 2 <= base <= 16 && n < |s| && forall k :: 0 <= k < n ==> s[k] == ' '
    requires forall k :: n <= k < |s| ==> IsDigit(s[k], base) && s[k] != 'x'
    ensures StrtolSpec(s, base) == Accumulate(s, n, base, 0)
  {
    assert IsDigit(s[n], base);
    SkipsPadding(s, 0, n);
    assert At(s, n + 1) != 'x';
  }

  /** `s` is n copies of the padding and then the digits of `num`. */
  predicate Layout(s: string, n: nat, padc: char, num: nat, base: nat)
    requires 2 <= base <= 16
  {
    && |s| == n + |Digits(num, base)| && s[n..] == Digits(num, base)
    && forall k :: 0 <= k < n ==> s[k] == padc
  }

  lemma LayoutDigits(s: string, n: nat, padc: char, num: nat, base: nat)
    requires 2 <= base <= 16 && Layout(s, n, padc, num, base)
    ensures forall k :: n <= k < |s| ==> IsDigit(s[k], base) && s[k] != 'x'
    ensures Accumulate(s, n, base, 0) == Result(Wrap32(num), |s|) && n < |s|
  {
    var digits := Digits(num, base);
    DigitsAreDigits(num, base);
    assert s[n..n + |digits|] == digits;
    hide *;
    forall k | n <= k < |s| ensures IsDigit(s[k], base) && s[k] != 'x' {
      assert s[k] == digits[k - n];
    }
    ReadsDigits(s, n, num, base);
    AtEnd(s, base, Wrap32(num));
  }

  lemma ZeroIsDigit(base: nat)
    requires 2 <= base <= 16
    ensures IsDigit('0', base) && '0' != 'x'
  {
  }

  lemma PlainRead(s: string, n: nat, padc: char, num: nat, base: nat)
    requires 2 <= base <= 16 && Layout(s, n, padc, num, base) && (padc == '0' || n == 0)
    ensures StrtolSpec(s, base) == Result(Wrap32(num), |s|)
  {
    LayoutDigits(s, n, padc, num, base);
    ZeroIsDigit(base);
    assert forall k :: 0 <= k < n ==> s[k] == '0';
    hide *;
    PlainPrefix(s, base);
    ReadsZeros(s, 0, n, base);
  }

  lemma BlankRead(s: string, n: nat, num: nat, base: nat)
    requires 2 <= base <= 16 && Layout(s, n, ' ', num, base)
    ensures StrtolSpec(s, base) == Result(Wrap32(num), |s|)
  {
    LayoutDigits(s, n, ' ', num, base);
    assert forall k :: 0 <= k < n ==> s[k] == ' ';
    hide *;
    BlankPrefix(s, n, base);
  }

  /** strtol reads all that printnum wrote, with blanks, zeros or nothing for padding, and gets the number's low 32 bits. */
  lemma RoundTrip(num: nat, base: nat, width: int, padc: char)
    requires 2 <= base <= 16 && Padded(padc, width, num, base)
    ensures var s := PrintNum(num, base, width, padc); StrtolSpec(s, base) == Result(Wrap32(num), |s|)
  {
    var s := PrintNum(num, base, width, padc);
    PaddingAt(num, base, width, padc);
    var n := |s| - |Digits(num, base)|;
    assert Layout(s, n, padc, num, base);
    hide PrintNum, Digits, StrtolSpec, Layout;
    if padc == ' ' {
      BlankRead(s, n, num, base);
    } else {
      PlainRead(s, n, padc, num, base);
    }
  }

  /** So it recovers the number exactly if that fits a `long`. */
  lemma RecoversIff(num: nat, base: nat, width: int, padc: char)
    requires 2 <= base <= 16 && Padded(padc, width, num, base)
    ensures StrtolSpec(PrintNum(num, base, width, padc), base).val == num <==> num < 0x8000_0000
  {
    RoundTrip(num, base, width, padc);
    hide StrtolSpec, PrintNum, Digits;
  }

  // ----- every literal -----

  lemma AtBeyond(a: string, b: string, i: nat)
    ensures At(a + b, |a| + i) == At(b, i)
  {
  }

  /** Behind the blanks there is the sign, if there is one, and no blank. */
  lemma BehindBlanks(l: Literal, base: nat, radix: nat)
    requires l.Valid(base, radix)
    ensures var c := At(l.sign + (l.prefix + (l.digits + l.rest)), 0);
      c != ' ' && c != '\t' && (c == '-' <==> l.sign == "-") && (c == '+' <==> l.sign == "+")
  {
    var tail := l.sign + (l.prefix + (l.digits + l.rest));
    if l.sign == "" {
      if l.prefix == "" {
        assert tail == l.digits + l.rest;
        if l.digits != [] {
          assert tail[0] == l.digits[0] && IsDigit(l.digits[0], radix);
        }
      } else {
        assert tail[0] == l.prefix[0] == '0';
      }
    }
  }

  lemma BlanksRead(l: Literal, base: nat, radix: nat)
    requires l.Valid(base, radix)
    ensures SkipBlanks(l.Text(), 0) == |l.blanks|
    ensures var c := At(l.Text(), |l.blanks|); (c == '-' <==> l.sign == "-") && (c == '+' <==> l.sign == "+")
  {
    BehindBlanks(l, base, radix);
    AtBeyond(l.blanks, l.sign + (l.prefix + (l.digits + l.rest)), 0);
    hide At, AllDigits, SkipBlanks, Prefixed, IsDigit;
    SkipsPadding(l.Text(), 0, |l.blanks|);
  }

  lemma PrefixRead(s: string, i: nat, prefix: string, t: string, base: nat, radix: nat)
    requires i <= |s| && s[i..] == prefix + t && Prefixed(prefix, t, base, radix)
    ensures BasePrefix(s, i, base) == Prefix(radix, i + |prefix|)
  {
    assert s == s[..i] + (prefix + t) && |s[..i]| == i;
    AtBeyond(s[..i], prefix + t, 0);
    AtBeyond(s[..i], prefix + t, 1);
    assert prefix == "" ==> prefix + t == t;
    assert prefix == "0" && t != [] ==> (prefix + t)[1] == t[0];
    assert prefix == "0x" ==> (prefix + t)[0] == '0' && (prefix + t)[1] == 'x';
  }

  lemma DigitsRead(s: string, i: nat, digits: string, rest: string, radix: nat)
    requires i <= |s| && s[i..] == digits + rest && AllDigits(digits, radix) && (rest != [] ==> !IsDigit(rest[0], radix))
    ensures i + |digits| == |s| - |rest|
    ensures Accumulate(s, i, radix, 0) == Result(Wrap32(ValueOf(digits, radix)), i + |digits|)
  {
    assert s[i..i + |digits|] == s[i..][..|digits|] == digits;
    ReadsValue(s, i, digits, radix);
    assert rest != [] ==> s[i + |digits|] == s[i..][|digits|] == rest[0];
    assert |s| == i + |digits| + |rest|;
    assert !IsDigit('\0', radix);
    hide IsDigit, ValueOf, Wrap32;
  }

  lemma NegatedTwice(x: int)
    ensures Wrap32(-Wrap32(x)) == Wrap32(-x)
  {
  }

  lemma StrtolParts(s: string, base: nat, b: nat, g: nat, radix: nat, p: nat)
    requires SkipBlanks(s, 0) == b && g <= |s| && BasePrefix(s, g, base) == Prefix(radix, p)
    requires g == if At(s, b) == '+' || At(s, b) == '-' then b + 1 else b
    ensures p <= |s| && StrtolSpec(s, base) ==
      var r := Accumulate(s, p, radix, 0); if At(s, b) == '-' then Result(Wrap32(-r.val), r.end) else r
  {
    hide SkipBlanks, Accumulate, Wrap32;
  }

  /** Where the parts of a literal stand in its text. */
  lemma Parts(l: Literal)
    ensures var s, g := l.Text(), |l.blanks| + |l.sign|;
      && |s| == |l.blanks| + |l.sign| + |l.prefix| + |l.digits| + |l.rest|
      && s[g..] == l.prefix + (l.digits + l.rest) && s[g + |l.prefix|..] == l.digits + l.rest
  {
    var t := l.prefix + (l.digits + l.rest);
    assert l.Text() == (l.blanks + l.sign) + t;
    assert l.Text() == (l.blanks + l.sign + l.prefix) + (l.digits + l.rest);
  }

  lemma ValidMeans(l: Literal, base: nat, radix: nat)
    requires l.Valid(base, radix)
    ensures AllDigits(l.digits, radix) && Prefixed(l.prefix, l.digits + l.rest, base, radix)
    ensures l.rest != [] ==> !IsDigit(l.rest[0], radix)
    ensures |l.sign| == if l.sign == "+" || l.sign == "-" then 1 else 0
  {
  }

  /** strtol on any literal: after blanks and a sign it takes "0x" as a prefix in base 16 or 0 and "0" in base 0, where a
      number without prefix is decimal; the result is the digits' value, negated behind a minus sign, in 32 bits, and
      *endptr is the first character after the digits. */
  lemma StrtolReads(l: Literal, base: nat, radix: nat)
    requires l.Valid(base, radix)
    ensures var v: int := ValueOf(l.digits, radix);
      StrtolSpec(l.Text(), base) ==
      Result(Wrap32(if l.sign == "-" then -v else v), |l.blanks| + |l.sign| + |l.prefix| + |l.digits|)
  {
    hide *;
    var s := l.Text();
    var g := |l.blanks| + |l.sign|;
    Parts(l);
    ValidMeans(l, base, radix);
    BlanksRead(l, base, radix);
    PrefixRead(s, g, l.prefix, l.digits + l.rest, base, radix);
    DigitsRead(s, g + |l.prefix|, l.digits, l.rest, radix);
    NegatedTwice(ValueOf(l.digits, radix));
    StrtolParts(s, base, |l.blanks|, g, radix, g + |l.prefix|);
  }
}
