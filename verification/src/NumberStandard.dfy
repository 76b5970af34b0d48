/**
  What a string of digits means, by section 7.8.2.3 of ISO C11, and when `malloc_strtoumax` reads that:
  white space, a sign, a prefix that the base allows, and as many digits of the base as there are.
 */
module NumberStandard {
  import opened NumberText

  predicate BaseOk(base: int) {
    base == 0 || 2 <= base <= 36
  }

  predicate Minus(s: string) {
    CharAt(s, SkipSpace(s, 0)) == '-'
  }

  /** Where white space and sign end. */
  function SignEnd(s: string): nat {
    var p := SkipSpace(s, 0);
    if CharAt(s, p) == '-' || CharAt(s, p) == '+' then p + 1 else p
  }

  /** A hexadecimal prefix with a digit behind it. */
  predicate HexPrefix(s: string, ns: nat) {
    CharAt(s, ns) == '0' && (CharAt(s, ns + 1) == 'x' || CharAt(s, ns + 1) == 'X') && HexDigit(CharAt(s, ns + 2))
  }

  /** Base 0 leaves the choice to the prefix. */
  function BaseOf(s: string, ns: nat, base: nat): nat {
    if base != 0 then base else if HexPrefix(s, ns) then 16 else if CharAt(s, ns) == '0' then 8 else 10
  }

  /** Where the digits begin; the zero of an octal prefix is one of them. */
  function StartOf(s: string, ns: nat, base: nat): nat {
    if BaseOf(s, ns, base) == 16 && HexPrefix(s, ns) then ns + 2 else ns
  }

  function Signed(neg: bool, v: nat): nat {
    if neg then Negated(v) else v
  }

  /**
    The digit after a leading zero is none that the prefix test knows, though the base has it: `8`, `9` or
    a letter other than `x`. The parser then stops at the zero.
   */
  predicate StopsAtZero(s: string, ns: nat, base: nat) {
    var c := CharAt(s, ns + 1);
    CharAt(s, ns) == '0' && DigitOf(c) < base && !OctalDigit(c) && c != 'x' && c != 'X'
  }

  lemma PlacesOk(s: string, base: nat)
    ensures SignEnd(s) <= |s| && StartOf(s, SignEnd(s), base) <= |s|
  {
  }

  // ---------- a leading zero changes nothing ----------

  lemma {:induction false} ZeroFirst(s: string, p: nat, q: nat, b: nat)
    requires p < q <= |s| && s[p] == '0'
    ensures Value(s, p, q, b) == Value(s, p + 1, q, b)
  {
    if p + 1 < q { ZeroFirst(s, p, q - 1, b); }
  }

  lemma ZeroEnds(s: string, p: nat, b: nat)
    requires p < |s| && s[p] == '0' && b >= 1
    ensures DigitsEnd(s, p, b) == DigitsEnd(s, p + 1, b)
  {
  }

  lemma ZeroWraps(s: string, p: nat, e: nat, b: nat)
    requires p < e <= |s| && s[p] == '0'
    ensures WrapsBefore(s, p, e, b) <==> WrapsBefore(s, p + 1, e, b)
  {
    if WrapsBefore(s, p, e, b) {
      var k :| p <= k < e && Wraps(s, p, k, b);
      ZeroFirst(s, p, k + 1, b);
      assert k > p;
      ZeroFirst(s, p, k, b);
      assert Wraps(s, p + 1, k, b);
    }
    if WrapsBefore(s, p + 1, e, b) {
      var k :| p + 1 <= k < e && Wraps(s, p + 1, k, b);
      ZeroFirst(s, p, k, b);
      ZeroFirst(s, p, k + 1, b);
      assert Wraps(s, p, k, b);
    }
  }

  /** The conversion loop, as a statement about any string. */
  ghost predicate Reads(r: Parse, s: string, p: nat, e: nat, b: nat)
    requires p <= e <= |s|
  {
    if WrapsBefore(s, p, e, b) then r.err == ERANGE && r.ret == UMAX - 1
    else r == Parse(Value(s, p, e, b) % UMAX, e, OK)
  }

  lemma LoopReads(s: string, p: nat, b: nat)
    requires 2 <= b <= 36 && p <= |s|
    ensures Reads(Convert(s, p, b, 0), s, p, DigitsEnd(s, p, b), b)
  {
    var e := DigitsEnd(s, p, b);
    ReadsEveryNumber(s, p, e, b, Value(s, p, e, b));
    assert Value(s, p, p, b) % UMAX == 0;
    ConvertFrom(s, p, p, b);
  }

  /** Skipping the zero of an octal prefix reads the same. */
  lemma OctalReads(s: string, ns: nat)
    requires ns < |s| && s[ns] == '0'
    ensures Reads(Convert(s, ns + 1, 8, 0), s, ns, DigitsEnd(s, ns, 8), 8)
  {
    var e := DigitsEnd(s, ns + 1, 8);
    LoopReads(s, ns + 1, 8);
    ZeroEnds(s, ns, 8);
    ZeroWraps(s, ns, e, 8);
    ZeroFirst(s, ns, e, 8);
  }

  /** A zero with no digit behind it. */
  lemma ZeroReads(s: string, ns: nat, b: nat)
    requires ns < |s| && s[ns] == '0' && b >= 2 && (ns + 1 < |s| ==> DigitOf(s[ns + 1]) >= b)
    ensures DigitsEnd(s, ns, b) == ns + 1 && !WrapsBefore(s, ns, ns + 1, b) && Value(s, ns, ns + 1, b) == 0
  {
    assert !Wraps(s, ns, ns, b);
  }

  /** A leading zero before `x`. */
  lemma CrossReads(s: string, ns: nat, base: nat)
    requires BaseOk(base) && ns + 1 < |s| && s[ns] == '0' && (s[ns + 1] == 'x' || s[ns + 1] == 'X')
    ensures var b, p := BaseOf(s, ns, base), StartOf(s, ns, base);
      p <= |s| && Reads(AfterSign(s, ns, base), s, p, DigitsEnd(s, p, b), b)
  {
    LoopReads(s, StartOf(s, ns, base), BaseOf(s, ns, base));
    if base == 0 && !HexPrefix(s, ns) {
      LoopReads(s, ns, 10);
      ZeroReads(s, ns, 10);
      ZeroReads(s, ns, 8);
    }
  }

  /** A leading zero before an octal digit. */
  lemma ZeroDigitReads(s: string, ns: nat, base: nat)
    requires BaseOk(base) && ns + 1 < |s| && s[ns] == '0' && OctalDigit(s[ns + 1])
    ensures var b, p := BaseOf(s, ns, base), StartOf(s, ns, base);
      p == ns && Reads(AfterSign(s, ns, base), s, p, DigitsEnd(s, p, b), b)
  {
    LoopReads(s, ns, BaseOf(s, ns, base));
    OctalReads(s, ns);
  }

  /** What follows the sign is read as the standard says, unless the parser stops at a zero. */
  lemma NumberReads(s: string, ns: nat, base: nat)
    requires BaseOk(base) && ns <= |s| && StartOf(s, ns, base) <= |s| && !StopsAtZero(s, ns, base)
    ensures var b, p := BaseOf(s, ns, base), StartOf(s, ns, base);
      Reads(AfterSign(s, ns, base), s, p, DigitsEnd(s, p, b), b)
  {
    var b, c := BaseOf(s, ns, base), CharAt(s, ns + 1);
    if CharAt(s, ns) != '0' {
      LoopReads(s, ns, b);
    } else if OctalDigit(c) {
      ZeroDigitReads(s, ns, base);
    } else if c == 'x' || c == 'X' {
      CrossReads(s, ns, base);
    } else {
      ZeroReads(s, ns, b);
    }
  }

  /** Stopping at a zero leaves a digit unread, and the number is not zero. */
  lemma StopsShort(s: string, ns: nat, base: nat)
    requires BaseOk(base) && ns <= |s| && StopsAtZero(s, ns, base)
    ensures base != 0 && StartOf(s, ns, base) == ns && AfterSign(s, ns, base) == Parse(0, ns + 1, OK)
    ensures ns + 1 < |s| && ns + 1 < DigitsEnd(s, ns, base) && Value(s, ns, DigitsEnd(s, ns, base), base) > 0
  {
    var e := DigitsEnd(s, ns, base);
    assert DigitsEnd(s, ns + 1, base) >= ns + 2;
    assert Value(s, ns, ns + 2, base) == Value(s, ns, ns + 1, base) * base + DigitOf(s[ns + 1]);
    ValueGrows(s, ns, ns + 2, e, base);
  }

  /**
    `malloc_strtoumax` of every string in every base. It reads all digits, and a number that fits exactly,
    if and only if it does not stop at a zero; it reports an overflow if and only if it does not stop at a
    zero and the number modulo 2^64 comes round at some digit; it reports that there is nothing to read
    if and only if there is no digit.
   */
  lemma ParsesEveryString(s: string, base: nat, ns: nat, b: nat, p: nat, e: nat, v: nat)
    requires BaseOk(base) && ns == SignEnd(s) && b == BaseOf(s, ns, base) && p == StartOf(s, ns, base) <= |s|
    requires e == DigitsEnd(s, p, b) && v == Value(s, p, e, b)
    ensures Strtoumax(s, base).err == EINVAL <==> e == ns
    ensures Strtoumax(s, base).err == ERANGE <==> !StopsAtZero(s, ns, base) && WrapsBefore(s, p, e, b)
    ensures Strtoumax(s, base).err != OK ==> Strtoumax(s, base).ret == UMAX - 1
    ensures Strtoumax(s, base).err == EINVAL ==> Strtoumax(s, base).end == 0
    ensures Strtoumax(s, base) == Parse(Signed(Minus(s), v % UMAX), e, OK) <==>
      e > ns && !StopsAtZero(s, ns, base) && !WrapsBefore(s, p, e, b)
    ensures StopsAtZero(s, ns, base) ==> Strtoumax(s, base) == Parse(0, ns + 1, OK) && ns + 1 < e && v > 0
    ensures e > ns && v < UMAX ==>
      (Strtoumax(s, base) == Parse(Signed(Minus(s), v), e, OK) <==> !StopsAtZero(s, ns, base))
  {
    PlacesOk(s, base);
    if StopsAtZero(s, ns, base) {
      StopsShort(s, ns, base);
    } else {
      NumberReads(s, ns, base);
      if v < UMAX { FitsNeverWraps(s, p, e, b, v); }
    }
  }

  lemma FitsNeverWraps(s: string, p: nat, e: nat, b: nat, v: nat)
    requires b >= 1 && p <= e <= |s| && v == Value(s, p, e, b) < UMAX
    ensures !WrapsBefore(s, p, e, b) && v % UMAX == v
  {
    SmallMod(v);
    forall k | p <= k < e ensures !Wraps(s, p, k, b) { NeverWraps(s, p, e, b, k); }
  }

  /** The texts "09" and "0a" are numbers of base 10 and 16, and are read as zero, up to their first character. */
  lemma LeadingZeroLost()
    ensures Strtoumax("09", 10) == Parse(0, 1, OK) && Value("09", 0, 2, 10) == 9
    ensures Strtoumax("0a", 16) == Parse(0, 1, OK) && Value("0a", 0, 2, 16) == 10
  {
    assert Value("09", 0, 1, 10) == 0;
    assert Value("0a", 0, 1, 16) == 0;
  }
}
