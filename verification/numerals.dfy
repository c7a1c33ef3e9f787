/**
 * Digit strings and their values: the character-to-digit mapping `c - '0'`,
 * the positional value of a digit string in an arbitrary base, and the
 * decimal parsing that `std::stoi` performs.
 */
module Numerals {
  import opened Wrappers

  /** `isdigit` in the C locale. */
  predicate IsDigit(c: char) {
    '0' <= c <= '9'
  }

  /**
   * The digit value the source gives a character, `c - '0'`.
   * Characters below '0' give negative values, characters above '9' values above 9.
   */
  function DigitValue(c: char): int {
    c as int - '0' as int
  }

  /** The character whose digit value is `d`. */
  function DigitChar(d: nat): (c: char)
    requires d < 10
    ensures IsDigit(c) && DigitValue(c) == d
  {
    ('0' as int + d) as char
  }

  /** Every character of `s` has a digit value below `base` (the only check the radix decoder makes). */
  predicate AllDigitsBelow(s: string, base: int) {
    forall i :: 0 <= i < |s| ==> DigitValue(s[i]) < base
  }

  /** Every character of `s` is an ordinary digit of `base`: `0 <= c - '0' < base`. */
  predicate ValidDigits(s: string, base: int) {
    forall i :: 0 <= i < |s| ==> 0 <= DigitValue(s[i]) < base
  }

  /** Left-to-right (Horner) evaluation: multiply the running value by the base, add the next digit. */
  function Horner(s: string, base: int): int
    decreases |s|
  {
    if |s| == 0 then 0 else Horner(s[..|s| - 1], base) * base + DigitValue(s[|s| - 1])
  }

  function Pow(b: int, e: nat): int
    decreases e
  {
    if e == 0 then 1 else b * Pow(b, e - 1)
  }

  /** The positional sum Σ digit(s[i]) · base^(|s|-1-i), unrolled from the most significant digit. */
  function Positional(s: string, base: int): int
    decreases |s|
  {
    if |s| == 0 then 0 else DigitValue(s[0]) * Pow(base, |s| - 1) + Positional(s[1..], base)
  }

  /** Appending a digit to the right multiplies the positional sum by the base and adds the digit. */
  lemma {:induction false} PositionalAppend(p: string, c: char, base: int)
    ensures Positional(p + [c], base) == Positional(p, base) * base + DigitValue(c)
    decreases |p|
  {
    if |p| == 0 {
      assert p + [c] == [c];
    } else {
      var q := p[1..];
      assert (p + [c])[1..] == q + [c];
      PositionalAppend(q, c, base);
      var d := DigitValue(p[0]);
      var w := Pow(base, |q|);
      assert Pow(base, |p|) == base * w;
      calc {
        Positional(p + [c], base);
        d * Pow(base, |p|) + Positional(q + [c], base);
        d * (base * w) + Positional(q, base) * base + DigitValue(c);
        { assert d * (base * w) == (d * w) * base; }
        (d * w + Positional(q, base)) * base + DigitValue(c);
        Positional(p, base) * base + DigitValue(c);
      }
    }
  }

  /** Horner evaluation computes the positional sum. */
  lemma {:induction false} HornerIsPositional(s: string, base: int)
    ensures Horner(s, base) == Positional(s, base)
    decreases |s|
  {
    if |s| > 0 {
      var p := s[..|s| - 1];
      HornerIsPositional(p, base);
      PositionalAppend(p, s[|s| - 1], base);
      assert p + [s[|s| - 1]] == s;
    }
  }

  /** A digit string with ordinary digits has a non-negative value. */
  lemma {:induction false} HornerNonNegative(s: string, base: int)
    requires base >= 2 && ValidDigits(s, base)
    ensures Horner(s, base) >= 0
    decreases |s|
  {
    if |s| > 0 {
      HornerNonNegative(s[..|s| - 1], base);
    }
  }

  /** A digit string with ordinary digits and a non-zero leading digit has a positive value. */
  lemma {:induction false} HornerPositive(s: string, base: int)
    requires base >= 2 && ValidDigits(s, base)
    requires |s| > 0 && s[0] != '0'
    ensures Horner(s, base) >= 1
    decreases |s|
  {
    if |s| > 1 {
      var p := s[..|s| - 1];
      HornerPositive(p, base);
      assert Horner(p, base) * base >= base;
    }
  }

  /** A non-zero multiple of a positive `b` is at least `b` in magnitude. */
  lemma MulBound(m: int, b: int)
    requires b > 0
    ensures m >= 1 ==> m * b >= b
    ensures m <= -1 ==> m * b <= -b
  {
  }

  /** Dividing `q * b + d` by `b` recovers `q` and `d` when `0 <= d < b`. */
  lemma DivModOfAffine(q: int, b: int, d: int)
    requires b > 0 && 0 <= d < b
    ensures (q * b + d) / b == q && (q * b + d) % b == d
  {
    var x := q * b + d;
    var k := x / b;
    assert x == k * b + x % b;
    assert (q - k) * b == x % b - d;
    MulBound(q - k, b);
  }

  /** Division by a base of at least 2 shrinks a number that is at least the base. */
  lemma DivShrinks(n: int, b: int)
    requires n >= b >= 2
    ensures 1 <= n / b < n && 0 <= n % b < b
    ensures n == (n / b) * b + n % b
  {
  }

  /** Appending a digit on the right: the Horner step. */
  lemma HornerSnoc(p: string, c: char, base: int)
    ensures Horner(p + [c], base) == Horner(p, base) * base + DigitValue(c)
  {
    assert (p + [c])[..|p|] == p;
  }

  /** The base-`base` numeral of `n` without leading zeros (the inverse of `Horner`). */
  function ToDigits(n: nat, base: int): (s: string)
    requires 2 <= base <= 10
    ensures |s| > 0 && ValidDigits(s, base)
    ensures s[0] != '0' || n == 0
    decreases n
  {
    if n < base then [DigitChar(n)]
    else
      DivShrinks(n, base);
      var p := ToDigits(n / base, base);
      var s := p + [DigitChar(n % base)];
      assert s[0] == p[0];
      s
  }

  /** Decoding an encoded number gives the number back. */
  lemma {:induction false} HornerOfToDigits(n: nat, base: int)
    requires 2 <= base <= 10
    ensures Horner(ToDigits(n, base), base) == n
    decreases n
  {
    if n >= base {
      DivShrinks(n, base);
      var q, r := n / base, n % base;
      var p := ToDigits(q, base);
      HornerOfToDigits(q, base);
      HornerStep(ToDigits(n, base), p, DigitChar(r), base, q, r, n);
    } else {
      HornerStep(ToDigits(n, base), [], DigitChar(n), base, 0, n, n);
    }
  }

  /** One Horner step, stated over plain values so that the caller's context stays small. */
  lemma HornerStep(s: string, p: string, c: char, base: int, q: int, r: int, n: int)
    requires s == p + [c] && Horner(p, base) == q && DigitValue(c) == r && n == q * base + r
    ensures Horner(s, base) == n
  {
    HornerSnoc(p, c, base);
  }

  /** Encoding the value of a canonical digit string gives the string back. */
  lemma {:induction false} ToDigitsOfHorner(s: string, base: int)
    requires 2 <= base <= 10 && ValidDigits(s, base)
    requires |s| > 0 && (s[0] != '0' || |s| == 1)
    ensures Horner(s, base) >= 0 && ToDigits(Horner(s, base), base) == s
    decreases |s|
  {
    HornerNonNegative(s, base);
    var c := s[|s| - 1];
    var p := s[..|s| - 1];
    assert s == p + [c];
    HornerSnoc(p, c, base);
    if |s| == 1 {
      assert p == [];
      assert ToDigits(DigitValue(c), base) == [DigitChar(DigitValue(c))];
    } else {
      assert ValidDigits(p, base);
      HornerPositive(p, base);
      ToDigitsOfHorner(p, base);
      ToDigitsStep(Horner(p, base), DigitValue(c), base, p);
    }
  }

  /** Encoding `h * base + d` appends the digit `d` to the encoding of `h`. */
  lemma ToDigitsStep(h: int, d: int, base: int, p: string)
    requires 2 <= base <= 10 && h >= 1 && 0 <= d < base && ToDigits(h, base) == p
    ensures h * base + d >= base && ToDigits(h * base + d, base) == p + [DigitChar(d)]
  {
    MulBound(h, base);
    DivModOfAffine(h, base, d);
  }

  /** The run of decimal digits at the front of `s`. */
  function DigitPrefix(s: string): (ds: string)
    ensures |ds| <= |s|
    decreases |s|
  {
    if |s| == 0 || !IsDigit(s[0]) then "" else [s[0]] + DigitPrefix(s[1..])
  }

  /** `DigitPrefix` is the longest prefix made of digits only. */
  lemma {:induction false} DigitPrefixIsLongestRun(s: string)
    ensures var ds := DigitPrefix(s);
      && ds == s[..|ds|]
      && (forall i :: 0 <= i < |ds| ==> IsDigit(ds[i]))
      && (|ds| == |s| || !IsDigit(s[|ds|]))
    decreases |s|
  {
    if |s| > 0 && IsDigit(s[0]) {
      DigitPrefixIsLongestRun(s[1..]);
    }
  }

  /** `isspace` in the C locale: space, tab, line feed, vertical tab, form feed, carriage return. */
  predicate IsSpace(c: char) {
    c == ' ' || '\t' <= c <= '\r'
  }

  /** `s` without its leading white space. */
  function SkipSpaces(s: string): (t: string)
    ensures |t| <= |s|
    decreases |s|
  {
    if |s| > 0 && IsSpace(s[0]) then SkipSpaces(s[1..]) else s
  }

  /** `SkipSpaces` drops exactly the leading run of white space. */
  lemma {:induction false} SkipSpacesDropsSpaces(s: string)
    ensures var t := SkipSpaces(s);
      && t == s[|s| - |t|..]
      && (forall i :: 0 <= i < |s| - |t| ==> IsSpace(s[i]))
      && (|t| == 0 || !IsSpace(t[0]))
    decreases |s|
  {
    if |s| > 0 && IsSpace(s[0]) {
      SkipSpacesDropsSpaces(s[1..]);
    }
  }

  /**
   * `std::stoi(s)` without its range check: skip leading white space, read an
   * optional sign and then the longest run of decimal digits; no digit is an error.
   */
  function Stoi(s: string): Option<int> {
    SignedDecimal(SkipSpaces(s))
  }

  /** An optional sign followed by a decimal digit run. */
  function SignedDecimal(t: string): Option<int> {
    if |t| > 0 && t[0] == '-' then
      match UnsignedDecimal(t[1..])
      case None => None
      case Some(v) => Some(-v)
    else if |t| > 0 && t[0] == '+' then UnsignedDecimal(t[1..])
    else UnsignedDecimal(t)
  }

  /** The value of the leading decimal digit run of `u`; `None` when `u` does not start with a digit. */
  function UnsignedDecimal(u: string): Option<int> {
    var ds := DigitPrefix(u);
    if |ds| == 0 then None else Some(Horner(ds, 10))
  }

  /** On text that starts with a digit, `stoi` succeeds with the value of the leading digit run. */
  lemma StoiOfDigitLed(s: string)
    requires |s| > 0 && IsDigit(s[0])
    ensures Stoi(s) == Some(Horner(DigitPrefix(s), 10))
  {
    SkipSpacesOfDigitLed(s);
    SignedDecimalOfDigitLed(s);
  }

  lemma SkipSpacesOfDigitLed(s: string)
    requires |s| > 0 && IsDigit(s[0])
    ensures SkipSpaces(s) == s
  {
  }

  lemma SignedDecimalOfDigitLed(s: string)
    requires |s| > 0 && IsDigit(s[0])
    ensures SignedDecimal(s) == Some(Horner(DigitPrefix(s), 10))
  {
    assert DigitPrefix(s) == [s[0]] + DigitPrefix(s[1..]);
  }

  /** `stoi` reads back a non-negative number written in decimal. */
  lemma StoiOfToDigits(n: nat)
    ensures Stoi(ToDigits(n, 10)) == Some(n)
  {
    var s := ToDigits(n, 10);
    assert IsDigit(s[0]);
    SkipSpacesOfDigitLed(s);
    UnsignedOfToDigits(n);
  }

  /** `stoi` reads back a negative number written in decimal with a minus sign. */
  lemma StoiOfNegative(n: nat)
    ensures Stoi("-" + ToDigits(n, 10)) == Some(-(n as int))
  {
    var s := ToDigits(n, 10);
    var t := "-" + s;
    assert !IsSpace(t[0]);
    assert SkipSpaces(t) == t;
    assert t[1..] == s;
    UnsignedOfToDigits(n);
  }

  /** The digit run of a decimal numeral is the whole numeral, and its value the number. */
  lemma UnsignedOfToDigits(n: nat)
    ensures UnsignedDecimal(ToDigits(n, 10)) == Some(n)
  {
    AllDigitsArePrefix(ToDigits(n, 10));
    HornerOfToDigits(n, 10);
  }

  /** A string of decimal digits is its own leading digit run. */
  lemma {:induction false} AllDigitsArePrefix(s: string)
    requires ValidDigits(s, 10)
    ensures DigitPrefix(s) == s
    decreases |s|
  {
    if |s| > 0 {
      assert ValidDigits(s[1..], 10) by {
        forall i | 0 <= i < |s| - 1 ensures 0 <= DigitValue(s[1..][i]) < 10 {
          assert s[1..][i] == s[i + 1];
        }
      }
      AllDigitsArePrefix(s[1..]);
      assert [s[0]] + s[1..] == s;
    }
  }
}
