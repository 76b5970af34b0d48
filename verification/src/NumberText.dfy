/** Numbers as text: the digits `u2s` prints, and what `malloc_strtoumax` makes of a string. */
module NumberText {
  import opened Arith

  /** One more than `UINTMAX_MAX`. */
  const UMAX: nat := 0x1_0000_0000_0000_0000

  datatype Errno = OK | EINVAL | ERANGE

  /** The number, how many characters were consumed, and `errno`. */
  datatype Parse = Parse(ret: nat, end: nat, err: Errno)

  // ---------- printing ----------

  function DigitChar(d: nat, upper: bool): char
    requires d < 36
  {
    if d < 10 then ('0' as int + d) as char
    else if upper then ('A' as int + d - 10) as char
    else ('a' as int + d - 10) as char
  }

  /** The digits of `x`, highest first; `0` alone begins with a zero. */
  function Digits(x: nat, base: nat, upper: bool): string
    requires 2 <= base <= 36
  {
    if x < base then [DigitChar(x, upper)] else Digits(x / base, base, upper) + [DigitChar(x % base, upper)]
  }

  /** A number below `2^n` has no more than `n` digits in any base. */
  lemma {:induction false} DigitsLength(x: nat, base: nat, upper: bool, n: nat)
    requires 2 <= base <= 36 && n >= 1 && x < Pow2(n)
    ensures 1 <= |Digits(x, base, upper)| <= n
    decreases n
  {
    if x >= base {
      assert n >= 2 by { assert Pow2(1) == 2; }
      assert x / base < Pow2(n - 1) by {
        ModLe(x, base);
        MulMono(2, base, x / base);
        assert x / base * base == base * (x / base);
      }
      DigitsLength(x / base, base, upper, n - 1);
    }
  }

  // ---------- reading ----------

  /** A character of a NUL-terminated string. */
  function CharAt(s: string, p: nat): char {
    if p < |s| then s[p] else '\0'
  }

  /** The value of a digit, or more than any base allows. */
  function DigitOf(c: char): nat {
    if '0' <= c <= '9' then c as int - '0' as int
    else if 'A' <= c <= 'Z' then 10 + c as int - 'A' as int
    else if 'a' <= c <= 'z' then 10 + c as int - 'a' as int
    else 36
  }

  /** The conversion loop, with the original's arithmetic and its overflow test. */
  function Convert(s: string, p: nat, b: nat, ret: nat): (r: Parse)
    requires 2 <= b <= 36
    ensures r.err != EINVAL && p <= r.end
    decreases |s| - p
  {
    var digit := DigitOf(CharAt(s, p));
    if p < |s| && digit < b then
      var now := (ret * b + digit) % UMAX;
      if now < ret then Parse(UMAX - 1, p, ERANGE) else Convert(s, p + 1, b, now)
    else Parse(ret, p, OK)
  }

  predicate IsSpace(c: char) {
    c == '\t' || c == '\n' || c == 11 as char || c == 12 as char || c == '\r' || c == ' '
  }

  function SkipSpace(s: string, p: nat): (q: nat)
    ensures p <= q && (p <= |s| ==> q <= |s|) && (q < |s| ==> !IsSpace(s[q]))
    ensures forall k | p <= k < q :: k < |s| && IsSpace(s[k])
    decreases |s| - p
  {
    if p < |s| && IsSpace(s[p]) then SkipSpace(s, p + 1) else p
  }

  predicate OctalDigit(c: char) { '0' <= c <= '7' }
  predicate HexDigit(c: char) { DigitOf(c) < 16 }

  /** After the sign: the prefix decides the base, and a zero that no prefix follows is all there is. */
  function AfterSign(s: string, ns: nat, base: nat): Parse
    requires base == 0 || 2 <= base <= 36
  {
    if CharAt(s, ns) == '0' then
      var c := CharAt(s, ns + 1);
      if OctalDigit(c) then
        var b := if base == 0 then 8 else base;
        Convert(s, if b == 8 then ns + 1 else ns, b, 0)
      else if c == 'X' || c == 'x' then
        if HexDigit(CharAt(s, ns + 2)) then
          var b := if base == 0 then 16 else base;
          Convert(s, if b == 16 then ns + 2 else ns, b, 0)
        else Convert(s, ns, if base == 0 then 10 else base, 0)
      else Parse(0, ns + 1, OK)
    else Convert(s, ns, if base == 0 then 10 else base, 0)
  }

  function Negated(ret: nat): nat { if ret == 0 || ret >= UMAX then 0 else UMAX - ret }

  /** `malloc_strtoumax` */
  function Strtoumax(s: string, base: int): Parse {
    if base < 0 || base == 1 || base > 36 then Parse(UMAX - 1, 0, EINVAL)
    else
      var p := SkipSpace(s, 0);
      var neg := CharAt(s, p) == '-';
      var ns := if neg || CharAt(s, p) == '+' then p + 1 else p;
      var r := AfterSign(s, ns, base);
      if r.err == ERANGE then r
      else if r.end == ns then Parse(UMAX - 1, 0, EINVAL)
      else if neg then r.(ret := Negated(r.ret)) else r
  }

  // ---------- the characters ----------

  const LOWER: string := "0123456789abcdefghijklmnopqrstuvwxyz"
  const UPPER: string := "0123456789ABCDEFGHIJKLMNOPQRSTUVWXYZ"

  /** The digits printed, and the white space skipped. */
  lemma Characters(d: nat, c: char)
    requires d < 36
    ensures DigitChar(d, false) == LOWER[d] && DigitChar(d, true) == UPPER[d]
    ensures IsSpace(c) <==> c as int == 32 || 9 <= c as int <= 13
  {
  }

  // ---------- the round trip ----------

  lemma DigitBack(d: nat, upper: bool)
    requires d < 36
    ensures DigitOf(DigitChar(d, upper)) == d && DigitChar(d, upper) != '\0'
    ensures (DigitChar(d, upper) == '0' <==> d == 0) && !IsSpace(DigitChar(d, upper)) && DigitChar(d, upper) != '-' &&
      DigitChar(d, upper) != '+'
  {
  }

  /** A character has a value if and only if it is a digit or a letter: its place in the row, small or capital. */
  lemma DigitValue(c: char)
    ensures DigitOf(c) < 36 ==> c == LOWER[DigitOf(c)] || c == UPPER[DigitOf(c)]
    ensures forall d | 0 <= d < 36 && (c == LOWER[d] || c == UPPER[d]) :: DigitOf(c) == d
  {
    if DigitOf(c) < 36 { Characters(DigitOf(c), c); }
    forall d | 0 <= d < 36 && (c == LOWER[d] || c == UPPER[d]) ensures DigitOf(c) == d {
      Characters(d, c);
      DigitBack(d, c == UPPER[d]);
    }
  }

  lemma DivStep(x: nat, base: nat)
    requires base >= 2 && x >= base
    ensures 1 <= x / base < x && x / base * base + x % base == x && x % base < base
  {
    ModLe(x, base);
    var q := x / base;
    MulMono(2, base, q);
  }

  /** The first digit is neither space nor sign, and a zero only for zero itself. */
  lemma {:induction false} FirstDigit(x: nat, base: nat, upper: bool)
    requires 2 <= base <= 36
    ensures var d := Digits(x, base, upper);
      && d != [] && (d[0] == '0' <==> x == 0) && !IsSpace(d[0]) && d[0] != '-' && d[0] != '+' &&
        DigitOf(d[0]) < base && (x == 0 ==> |d| == 1)
    decreases x
  {
    if x < base {
      DigitBack(x, upper);
    } else {
      DivStep(x, base);
      var q, r := x / base, x % base;
      FirstDigit(q, base, upper);
      assert Digits(x, base, upper) == Digits(q, base, upper) + [DigitChar(r, upper)];
    }
  }

  /** One digit read. */
  lemma ConvertStep(s: string, p: nat, b: nat, ret: nat, digit: nat, upper: bool)
    requires 2 <= b <= 36 && p < |s| && digit < b && s[p] == DigitChar(digit, upper) && ret <= ret * b + digit < UMAX
    ensures Convert(s, p, b, ret) == Convert(s, p + 1, b, ret * b + digit)
  {
    DigitBack(digit, upper);
    var now := ret * b + digit;
    assert now % UMAX == now;
  }

  lemma SliceSplit(s: string, p: nat, h: string, c: char)
    requires p + |h| + 1 <= |s| && s[p..p + |h| + 1] == h + [c]
    ensures s[p..p + |h|] == h && s[p + |h|] == c
  {
    var t := s[p..p + |h| + 1];
    assert t[..|h|] == h && t[|h|] == c;
    assert t[..|h|] == s[p..p + |h|];
  }

  /** Reading the digits of `x` from nothing gives `x`, and the overflow test stays quiet. */
  lemma {:induction false} ConvertDigits(s: string, p: nat, x: nat, base: nat, upper: bool, d: string)
    requires 2 <= base <= 36 && x < UMAX && d == Digits(x, base, upper) && p + |d| <= |s| && s[p..p + |d|] == d
    ensures Convert(s, p, base, 0) == Convert(s, p + |d|, base, x)
    decreases x
  {
    if x < base {
      assert s[p..p + 1][0] == s[p];
      ConvertStep(s, p, base, 0, x, upper);
    } else {
      DivStep(x, base);
      var q, r := x / base, x % base;
      var h := Digits(q, base, upper);
      assert d == h + [DigitChar(r, upper)];
      var n := p + |h|;
      SliceSplit(s, p, h, DigitChar(r, upper));
      ConvertDigits(s, p, q, base, upper, h);
      MulGe(base, q);
      ConvertStep(s, n, base, q, r, upper);
    }
  }

  /** Reading up to the end of the digits. */
  lemma ConvertAll(s: string, p: nat, x: nat, base: nat, upper: bool)
    requires 2 <= base <= 36 && x < UMAX && p <= |s| && s[p..] == Digits(x, base, upper)
    ensures Convert(s, p, base, 0) == Parse(x, |s|, OK)
  {
    ConvertDigits(s, p, x, base, upper, s[p..]);
  }

  /** `malloc_strtoumax` undoes `u2s` in every base, with base 0 for decimal, and consumes the whole text. */
  lemma RoundTrip(x: nat, base: nat, upper: bool)
    requires x < UMAX && 2 <= base <= 36
    ensures var s := Digits(x, base, upper);
      Strtoumax(s, base) == Parse(x, |s|, OK) && (base == 10 ==> Strtoumax(s, 0) == Parse(x, |s|, OK))
  {
    var s := Digits(x, base, upper);
    FirstDigit(x, base, upper);
    assert s[0..] == s;
    ConvertAll(s, 0, x, base, upper);
  }

  /** `o2s` in its alternate form. */
  function Octal(x: nat): string {
    var s := Digits(x, 8, false);
    if s != [] && s[0] != '0' then ['0'] + s else s
  }

  lemma {:induction false} OctalDigits(x: nat)
    ensures forall i | 0 <= i < |Digits(x, 8, false)| :: OctalDigit(Digits(x, 8, false)[i])
    decreases x
  {
    if x >= 8 { OctalDigits(x / 8); }
  }

  /** The octal prefix is understood with base 0, and skipped with base 8. */
  lemma OctalRoundTrip(x: nat)
    requires x < UMAX
    ensures var s := Octal(x); Strtoumax(s, 0) == Parse(x, |s|, OK) && Strtoumax(s, 8) == Parse(x, |s|, OK)
  {
    var s, d := Octal(x), Digits(x, 8, false);
    FirstDigit(x, 8, false);
    OctalDigits(x);
    if x > 0 {
      assert s[1..] == d;
      ConvertAll(s, 1, x, 8, false);
    }
  }

  /** `x2s` in its alternate form. */
  function Hex(x: nat, upper: bool): string {
    (if upper then "0X" else "0x") + Digits(x, 16, upper)
  }

  /** The hexadecimal prefix is understood with base 0, and skipped with base 16. */
  lemma HexRoundTrip(x: nat, upper: bool)
    requires x < UMAX
    ensures var s := Hex(x, upper); Strtoumax(s, 0) == Parse(x, |s|, OK) && Strtoumax(s, 16) == Parse(x, |s|, OK)
  {
    var s := Hex(x, upper);
    FirstDigit(x, 16, upper);
    assert s[2..] == Digits(x, 16, upper) && s[2] == Digits(x, 16, upper)[0];
    ConvertAll(s, 2, x, 16, upper);
  }

  /** `d2s` for a number above `INTMAX_MIN`; `sign` is what goes before one that is not negative, `-` for nothing. */
  function Decimal(x: int, sign: char): string {
    if x < 0 then ['-'] + Digits(-x, 10, false)
    else if sign == ' ' || sign == '+' then [sign] + Digits(x, 10, false)
    else Digits(x, 10, false)
  }

  /** A signed decimal comes back as its two's complement. */
  lemma DecimalRoundTrip(x: int, sign: char)
    requires -(UMAX / 2) < x < UMAX / 2
    ensures var s := Decimal(x, sign); Strtoumax(s, 10) == Parse(if x < 0 then UMAX + x else x, |s|, OK)
  {
    var a := if x < 0 then -x else x;
    var s, d := Decimal(x, sign), Digits(a, 10, false);
    FirstDigit(a, 10, false);
    if s == d {
      assert s[0..] == d;
      ConvertAll(s, 0, a, 10, false);
    } else {
      assert s[1..] == d && s[1] == d[0];
      assert SkipSpace(s, 1) == 1;
      ConvertAll(s, 1, a, 10, false);
    }
  }

  // ---------- every string of digits ----------

  /** Where the digits that begin at `p` end. */
  function DigitsEnd(s: string, p: nat, b: nat): (q: nat)
    requires p <= |s|
    ensures p <= q <= |s| && (q < |s| ==> DigitOf(s[q]) >= b) && forall k | p <= k < q :: DigitOf(s[k]) < b
    decreases |s| - p
  {
    if p < |s| && DigitOf(s[p]) < b then DigitsEnd(s, p + 1, b) else p
  }

  /** The number that the digits from `p` to `q` stand for. */
  function Value(s: string, p: nat, q: nat, b: nat): nat
    requires p <= q <= |s|
  {
    if q == p then 0 else Value(s, p, q - 1, b) * b + DigitOf(s[q - 1])
  }

  /** The digit at `k` makes the number come round below what it was: what the overflow test sees. */
  predicate Wraps(s: string, p: nat, k: nat, b: nat)
    requires p <= k < |s|
  {
    Value(s, p, k + 1, b) % UMAX < Value(s, p, k, b) % UMAX
  }

  /** The conversion from digit `q` on: up to the first digit at which the number comes round, or to the end. */
  lemma {:induction false} ConvertFrom(s: string, p: nat, q: nat, b: nat)
    requires 2 <= b <= 36 && p <= q <= |s| && q <= DigitsEnd(s, p, b)
    ensures var e, r := DigitsEnd(s, p, b), Convert(s, q, b, Value(s, p, q, b) % UMAX);
      if r.err == ERANGE then r.ret == UMAX - 1 && q <= r.end < e && Wraps(s, p, r.end, b)
      else r == Parse(Value(s, p, e, b) % UMAX, e, OK) && forall k | q <= k < e :: !Wraps(s, p, k, b)
    decreases |s| - q
  {
    var e := DigitsEnd(s, p, b);
    if q < e {
      ModStep(Value(s, p, q, b), b, DigitOf(s[q]), UMAX);
      if !Wraps(s, p, q, b) { ConvertFrom(s, p, q + 1, b); }
    }
  }

  /** The number only grows from digit to digit. */
  lemma {:induction false} ValueGrows(s: string, p: nat, k: nat, q: nat, b: nat)
    requires b >= 1 && p <= k <= q <= |s|
    ensures Value(s, p, k, b) <= Value(s, p, q, b)
  {
    if k < q {
      ValueGrows(s, p, k, q - 1, b);
      MulGe(b, Value(s, p, q - 1, b));
    }
  }

  lemma SmallMod(x: nat)
    requires x < UMAX
    ensures x % UMAX == x
  {
  }

  /** A number that fits never comes round. */
  lemma NeverWraps(s: string, p: nat, e: nat, b: nat, k: nat)
    requires b >= 1 && p <= k < e <= |s| && Value(s, p, e, b) < UMAX
    ensures !Wraps(s, p, k, b)
  {
    ValueGrows(s, p, k, k + 1, b);
    ValueGrows(s, p, k + 1, e, b);
    SmallMod(Value(s, p, k, b));
    SmallMod(Value(s, p, k + 1, b));
  }

  ghost predicate WrapsBefore(s: string, p: nat, e: nat, b: nat)
    requires p <= e <= |s|
  {
    exists k :: p <= k < e && Wraps(s, p, k, b)
  }

  /**
    For every string: a number that fits is read exactly, up to its last digit; one that does not is
    reported if and only if at some digit the number, modulo 2^64, comes round below what it was, and
    otherwise comes back modulo 2^64 without an error.
   */
  lemma ReadsEveryNumber(s: string, p: nat, e: nat, b: nat, v: nat)
    requires 2 <= b <= 36 && p <= |s| && e == DigitsEnd(s, p, b) && v == Value(s, p, e, b)
    ensures Convert(s, p, b, 0).err == ERANGE <==> WrapsBefore(s, p, e, b)
    ensures !WrapsBefore(s, p, e, b) ==> Convert(s, p, b, 0) == Parse(v % UMAX, e, OK)
    ensures v < UMAX ==> Convert(s, p, b, 0) == Parse(v, e, OK)
  {
    assert Value(s, p, p, b) % UMAX == 0;
    ConvertFrom(s, p, p, b);
    if v < UMAX {
      SmallMod(v);
      forall k | p <= k < e ensures !Wraps(s, p, k, b) {
        NeverWraps(s, p, e, b, k);
      }
    }
  }

  lemma {:induction false} ValueOfPart(s: string, t: string, q: nat, b: nat)
    requires q <= |s| && q <= |t| && s[..q] == t[..q]
    ensures Value(s, 0, q, b) == Value(t, 0, q, b)
  {
    if q > 0 {
      assert s[..q][..q - 1] == s[..q - 1] && t[..q][..q - 1] == t[..q - 1] && s[..q][q - 1] == t[..q][q - 1];
      ValueOfPart(s, t, q - 1, b);
    }
  }

  /** What is printed for `x` stands for `x`, in digits of the base alone, without a zero in front. */
  lemma {:induction false} DigitsMean(x: nat, base: nat, upper: bool)
    requires 2 <= base <= 36
    ensures var d := Digits(x, base, upper);
      && Value(d, 0, |d|, base) == x && (forall i | 0 <= i < |d| :: DigitOf(d[i]) < base)
      && d != [] && (d[0] == '0' <==> x == 0) && (x == 0 ==> |d| == 1)
    decreases x
  {
    FirstDigit(x, base, upper);
    if x < base {
      DigitBack(x, upper);
    } else {
      DivStep(x, base);
      var q, r := x / base, x % base;
      var d, h := Digits(x, base, upper), Digits(q, base, upper);
      DigitsMean(q, base, upper);
      DigitBack(r, upper);
      assert d == h + [DigitChar(r, upper)];
      ValueOfPart(d, h, |h|, base);
    }
  }

  lemma {:induction false} OnesValue(s: string, q: nat)
    requires q <= |s| && forall i | 0 <= i < q :: s[i] == '1'
    ensures Value(s, 0, q, 2) == Pow2(q) - 1
  {
    if q > 0 { OnesValue(s, q - 1); }
  }

  lemma {:induction false} OnesEnd(s: string, p: nat)
    requires p <= |s| && forall i | 0 <= i < |s| :: s[i] == '1'
    ensures DigitsEnd(s, p, 2) == |s|
    decreases |s| - p
  {
    if p < |s| { OnesEnd(s, p + 1); }
  }

  /** An overflow that goes unnoticed: sixty-five ones in base 2 are read as the largest number, without an error. */
  lemma OverflowMissed()
    ensures var s := seq(65, _ => '1'); Value(s, 0, 65, 2) >= UMAX && Strtoumax(s, 2) == Parse(UMAX - 1, 65, OK)
  {
    var s := seq(65, _ => '1');
    Pow2Is64();
    assert Pow2(65) == 2 * Pow2(64);
    OnesValue(s, 65);
    OnesEnd(s, 0);
    forall k | 0 <= k < 65 ensures !Wraps(s, 0, k, 2) {
      OnesValue(s, k);
      OnesValue(s, k + 1);
      if k < 64 { Pow2Mono(k + 1, 64); }
    }
    ReadsEveryNumber(s, 0, 65, 2, Value(s, 0, 65, 2));
  }
}
