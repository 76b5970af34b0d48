/** The printing and parsing loops of `malloc_io.c`. */
module NumberIO {
  import opened Arith
  import opened NumberText

  /** `U2S_BUFSIZE - 1`: a digit for each bit, and the terminating NUL behind them. */
  const LAST: nat := 64

  lemma WordDigits(x: nat, base: nat, upper: bool)
    requires x < UMAX && 2 <= base <= 36
    ensures 1 <= |Digits(x, base, upper)| <= LAST
  {
    Pow2Is64();
    DigitsLength(x, base, upper, 64);
  }

  /** What is left of a number, and of its digits, once its last digit is written. */
  function Rest(q: nat, base: nat, upper: bool): string
    requires 2 <= base <= 36
  {
    if q > 0 then Digits(q, base, upper) else []
  }

  lemma LastDigit(x: nat, base: nat, upper: bool)
    requires 2 <= base <= 36
    ensures Digits(x, base, upper) == Rest(x / base, base, upper) + [DigitChar(x % base, upper)]
  {
    if x >= base {
      DivStep(x, base);
    } else {
      DivUnique(x, base, 0, x);
    }
  }

  /** One turn of the printing loop: the last digit, and what is left. */
  method SplitDigit(x: nat, base: nat, upper: bool) returns (q: nat, c: char)
    requires 2 <= base <= 36
    ensures Digits(x, base, upper) == Rest(q, base, upper) + [c]
  {
    LastDigit(x, base, upper);
    c := DigitChar(x % base, upper);
    q := x / base;
  }

  /** `u2s`: the digits from the end of the buffer towards its front, which they never pass. */
  method U2s(x0: nat, base: nat, upper: bool, buf: array<char>) returns (i: nat)
    requires x0 < UMAX && 2 <= base <= 36 && buf.Length > LAST
    modifies buf
    ensures i < LAST && buf[i..LAST] == Digits(x0, base, upper) && buf[LAST] == '\0'
  {
    WordDigits(x0, base, upper);
    i := LAST;
    buf[i] := '\0';
    var x: nat := x0;
    ghost var d, left := Digits(x0, base, upper), Digits(x0, base, upper);
    while true
      invariant 0 <= i <= LAST && buf[LAST] == '\0' && |d| <= LAST
      invariant left == Digits(x, base, upper) && left != [] && d == left + buf[i..LAST]
      decreases i
    {
      ghost var done := buf[i..LAST];
      var q, c := SplitDigit(x, base, upper);
      i := i - 1;
      buf[i] := c;
      assert buf[i..LAST] == [c] + done && d == Rest(q, base, upper) + ([c] + done);
      x := q;
      if x == 0 { break; }
      left := Digits(x, base, upper);
      NotEmpty(x, base, upper);
    }
  }

  lemma NotEmpty(x: nat, base: nat, upper: bool)
    requires 2 <= base <= 36
    ensures Digits(x, base, upper) != []
  {
  }

  /** A prefix written in front of what is there. */
  lemma Fronted(buf: seq<char>, i: nat, front: string, d: string)
    requires |front| <= i <= LAST < |buf| && buf[i..LAST] == d && buf[i - |front|..i] == front
    ensures buf[i - |front|..LAST] == front + d
  {
  }

  lemma {:induction false} FewDigits(x: nat, base: nat, upper: bool)
    requires x < UMAX && 4 <= base <= 36
    ensures |Digits(x, base, upper)| <= 32
  {
    Pow2Is64();
    Pow2Add(32, 32);
    FewDigitsBelow(x, base, upper, 32);
  }

  lemma {:induction false} FewDigitsBelow(x: nat, base: nat, upper: bool, n: nat)
    requires 4 <= base <= 36 && n >= 1 && x < Pow2(n) * Pow2(n)
    ensures |Digits(x, base, upper)| <= n
    decreases n
  {
    if x >= base {
      DivStep(x, base);
      var q := x / base;
      assert n >= 2 by { assert Pow2(1) == 2; }
      var h := Pow2(n - 1);
      assert Pow2(n) == 2 * h && Pow2(n) * Pow2(n) == 4 * (h * h);
      MulMono(4, base, q);
      assert q * base == base * q;
      assert q < h * h;
      FewDigitsBelow(q, base, upper, n - 1);
    }
  }

  /** `d2s` for a number above `INTMAX_MIN` */
  method D2s(x0: int, sign0: char, buf: array<char>) returns (i: nat)
    requires -(UMAX / 2) < x0 < UMAX / 2 && sign0 in {'-', ' ', '+'} && buf.Length > LAST
    modifies buf
    ensures i < LAST && buf[i..LAST] == Decimal(x0, sign0) && buf[LAST] == '\0'
    ensures x0 < 0 ==> buf[i..LAST] == "-" + Digits(-x0, 10, false)
    ensures x0 >= 0 ==> buf[i..LAST] == (if sign0 == '-' then [] else [sign0]) + Digits(x0, 10, false)
  {
    var x, sign := x0, sign0;
    var neg := x < 0;
    if neg { x := -x; }
    i := U2s(x, 10, false, buf);
    FewDigits(x, 10, false);
    ghost var d := Digits(x, 10, false);
    if neg { sign := '-'; }
    if sign != '-' || neg {
      i := i - 1;
      buf[i] := sign;
      Fronted(buf[..], i + 1, [sign], d);
    }
  }

  /** `o2s` */
  method O2s(x: nat, altForm: bool, buf: array<char>) returns (i: nat)
    requires x < UMAX && buf.Length > LAST
    modifies buf
    ensures i < LAST && buf[i..LAST] == (if altForm then Octal(x) else Digits(x, 8, false)) && buf[LAST] == '\0'
    ensures buf[i..LAST] == (if altForm && x > 0 then "0" else "") + Digits(x, 8, false)
  {
    i := U2s(x, 8, false, buf);
    FewDigits(x, 8, false);
    ghost var d := Digits(x, 8, false);
    FirstDigit(x, 8, false);
    assert buf[i] == buf[i..LAST][0];
    if altForm && buf[i] != '0' {
      i := i - 1;
      buf[i] := '0';
      Fronted(buf[..], i + 1, ['0'], d);
      assert "0" == ['0'];
    } else {
      assert "" + d == d;
    }
  }

  /** `x2s` */
  method X2s(x: nat, altForm: bool, upper: bool, buf: array<char>) returns (i: nat)
    requires x < UMAX && buf.Length > LAST
    modifies buf
    ensures i < LAST && buf[i..LAST] == (if altForm then Hex(x, upper) else Digits(x, 16, upper)) && buf[LAST] == '\0'
    ensures buf[i..LAST] == (if !altForm then "" else if upper then "0X" else "0x") + Digits(x, 16, upper)
  {
    i := U2s(x, 16, upper, buf);
    FewDigits(x, 16, upper);
    ghost var d := Digits(x, 16, upper);
    if altForm {
      i := i - 2;
      buf[i], buf[i + 1] := '0', if upper then 'X' else 'x';
      assert buf[..][i..i + 2] == if upper then "0X" else "0x";
      Fronted(buf[..], i + 2, if upper then "0X" else "0x", d);
    }
  }

  /** The conversion loop. */
  method ConvertLoop(s: string, p0: nat, b: nat) returns (r: Parse)
    requires 2 <= b <= 36
    ensures r == Convert(s, p0, b, 0)
  {
    var p, ret: nat := p0, 0;
    while p < |s| && DigitOf(CharAt(s, p)) < b
      invariant Convert(s, p, b, ret) == Convert(s, p0, b, 0)
      decreases |s| - p
    {
      var pret := ret;
      ret := (ret * b + DigitOf(CharAt(s, p))) % UMAX;
      if ret < pret { return Parse(UMAX - 1, p, ERANGE); }
      p := p + 1;
    }
    return Parse(ret, p, OK);
  }

  /** `malloc_strtoumax` after the sign: the prefix, and the digits. */
  method ReadNumber(s: string, ns: nat, base: nat) returns (r: Parse)
    requires base == 0 || 2 <= base <= 36
    ensures r == AfterSign(s, ns, base)
  {
    var p, b := ns, base;
    if CharAt(s, p) == '0' {
      var c := CharAt(s, p + 1);
      if OctalDigit(c) {
        if b == 0 { b := 8; }
        if b == 8 { p := p + 1; }
      } else if c == 'X' || c == 'x' {
        if HexDigit(CharAt(s, p + 2)) {
          if b == 0 { b := 16; }
          if b == 16 { p := p + 2; }
        }
      } else {
        return Parse(0, p + 1, OK);
      }
    }
    if b == 0 { b := 10; }
    r := ConvertLoop(s, p, b);
  }

  /** `malloc_strtoumax` */
  method StrToUmax(s: string, base: int) returns (r: Parse)
    ensures r == Strtoumax(s, base)
    ensures base < 0 || base == 1 || base > 36 ==> r == Parse(0xFFFF_FFFF_FFFF_FFFF, 0, EINVAL)
  {
    if base < 0 || base == 1 || base > 36 { return Parse(UMAX - 1, 0, EINVAL); }
    var p: nat := 0;
    while p < |s| && IsSpace(s[p])
      invariant p <= |s| && SkipSpace(s, p) == SkipSpace(s, 0)
    {
      p := p + 1;
    }
    var neg := CharAt(s, p) == '-';
    if neg || CharAt(s, p) == '+' { p := p + 1; }
    var ns := p;
    r := ReadNumber(s, ns, base);
    if r.err == ERANGE { return; }
    if neg { r := r.(ret := Negated(r.ret)); }
    if r.end == ns { return Parse(UMAX - 1, 0, EINVAL); }
  }
}
