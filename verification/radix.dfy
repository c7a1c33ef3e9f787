/**
 * `convertToDecimal`: the value of a digit string in a base given as text.
 * The digits are consumed right to left with a running power of the base,
 * and the only check is that no character's `c - '0'` reaches the base.
 */
module Radix {
  import opened Wrappers
  import opened Numerals

  /**
   * Why a conversion failed. The source rethrows both as one
   * `invalid_argument("Invalid base or value format")`.
   */
  datatype ConvertError =
    | BaseNotNumeric    // `stoi` found no number in the base text
    | DigitExceedsBase  // some character has `c - '0' >= base`

  /**
   * The digit loop from its current right end: check the last digit, add
   * `digit * power`, then continue leftwards with `power * base`.
   */
  function AccumulateRightToLeft(s: string, base: int, power: int): (r: Result<int, ConvertError>)
    ensures r.Success? <==> AllDigitsBelow(s, base)
    ensures r.Success? ==> r.value == power * Horner(s, base)
    ensures r.Failure? ==> r.error == DigitExceedsBase
    decreases |s|
  {
    if |s| == 0 then Success(0)
    else
      var digit := DigitValue(s[|s| - 1]);
      if digit >= base then Failure(DigitExceedsBase)
      else
        match AccumulateRightToLeft(s[..|s| - 1], base, power * base)
        case Failure(e) => Failure(e)
        case Success(rest) =>
          AccumulateStep(s, base, power, digit, rest);
          Success(digit * power + rest)
  }

  /** One loop step: the new term plus the rest is `power` times the Horner value. */
  lemma AccumulateStep(s: string, base: int, power: int, digit: int, rest: int)
    requires |s| > 0 && digit == DigitValue(s[|s| - 1])
    requires rest == power * base * Horner(s[..|s| - 1], base)
    ensures digit * power + rest == power * Horner(s, base)
  {
    var h := Horner(s[..|s| - 1], base);
    assert Horner(s, base) == h * base + digit;
    assert power * (h * base + digit) == power * base * h + digit * power;
  }

  /** `convertToDecimal(valueStr, baseStr)`. */
  function ConvertToDecimal(valueStr: string, baseStr: string): (r: Result<int, ConvertError>)
    ensures r.Success? <==> Stoi(baseStr).Some? && AllDigitsBelow(valueStr, Stoi(baseStr).value)
    ensures r.Success? ==> r.value == Horner(valueStr, Stoi(baseStr).value)
    ensures Stoi(baseStr).None? ==> r == Failure(BaseNotNumeric)
  {
    match Stoi(baseStr)
    case None => Failure(BaseNotNumeric)
    case Some(base) => AccumulateRightToLeft(valueStr, base, 1)
  }

  /**
   * `convertToDecimal` with its loop as written: `i` runs from the last index
   * down to 0, `decimal += digit * power` and `power *= base` on each turn, and
   * the first digit at or above the base aborts the conversion.
   */
  method ConvertToDecimalLoop(valueStr: string, baseStr: string) returns (r: Result<int, ConvertError>)
    ensures r == ConvertToDecimal(valueStr, baseStr)
  {
    var parsed := Stoi(baseStr);
    if parsed.None? {
      return Failure(BaseNotNumeric);
    }
    var base := parsed.value;
    var decimal := 0;
    var power := 1;
    var i := |valueStr| - 1;
    while i >= 0
      invariant -1 <= i < |valueStr|
      invariant AllDigitsBelow(valueStr[i + 1..], base)
      invariant decimal == Positional(valueStr[i + 1..], base)
      invariant power == Pow(base, |valueStr| - 1 - i)
      decreases i
    {
      var digit := DigitValue(valueStr[i]);
      if digit >= base {
        assert !AllDigitsBelow(valueStr, base);
        return Failure(DigitExceedsBase);
      }
      PositionalStep(valueStr, i, base);
      DigitsBelowStep(valueStr, i, base);
      PowStep(base, |valueStr| - 1 - i);
      decimal := decimal + digit * power;
      power := power * base;
      i := i - 1;
    }
    assert valueStr[0..] == valueStr;
    HornerIsPositional(valueStr, base);
    return Success(decimal);
  }

  /** Extending the processed suffix by one digit on the left adds that digit times the next power. */
  lemma PositionalStep(s: string, i: nat, base: int)
    requires i < |s|
    ensures Positional(s[i..], base) == DigitValue(s[i]) * Pow(base, |s| - 1 - i) + Positional(s[i + 1..], base)
  {
    var t := s[i..];
    assert t[0] == s[i] && t[1..] == s[i + 1..] && |t| - 1 == |s| - 1 - i;
  }

  /** A digit below the base keeps the processed suffix within the base. */
  lemma DigitsBelowStep(s: string, i: nat, base: int)
    requires i < |s|
    requires AllDigitsBelow(s[i + 1..], base) && DigitValue(s[i]) < base
    ensures AllDigitsBelow(s[i..], base)
  {
    assert forall j :: 1 <= j < |s[i..]| ==> s[i..][j] == s[i + 1..][j - 1];
  }

  /** The running power gains one factor of the base per turn. */
  lemma PowStep(base: int, e: nat)
    ensures Pow(base, e + 1) == Pow(base, e) * base
  {
    assert Pow(base, e + 1) == base * Pow(base, e);
  }

  /** A successful conversion is the positional sum Σ digit(c_i) · base^(len-1-i). */
  lemma ConvertIsPositional(valueStr: string, baseStr: string)
    requires ConvertToDecimal(valueStr, baseStr).Success?
    ensures ConvertToDecimal(valueStr, baseStr).value == Positional(valueStr, Stoi(baseStr).value)
  {
    HornerIsPositional(valueStr, Stoi(baseStr).value);
  }

  /** The empty digit string converts to 0 whenever the base text holds a number. */
  lemma ConvertEmpty(baseStr: string)
    requires Stoi(baseStr).Some?
    ensures ConvertToDecimal("", baseStr) == Success(0)
  {
  }

  /** Converting the base-`base` numeral of `n`, with the base written in decimal, gives `n`. */
  lemma ConvertOfToDigits(n: nat, base: int)
    requires 2 <= base <= 10
    ensures ConvertToDecimal(ToDigits(n, base), ToDigits(base, 10)) == Success(n)
  {
    StoiOfToDigits(base);
    HornerOfToDigits(n, base);
  }

  /** Writing the value of a canonical digit string back in its base reproduces the string. */
  lemma ToDigitsOfConvert(s: string, base: int)
    requires 2 <= base <= 10 && ValidDigits(s, base)
    requires |s| > 0 && (s[0] != '0' || |s| == 1)
    ensures ConvertToDecimal(s, ToDigits(base, 10)).Success?
    ensures var v := ConvertToDecimal(s, ToDigits(base, 10)).value; v >= 0 && ToDigits(v, base) == s
  {
    StoiOfToDigits(base);
    ToDigitsOfHorner(s, base);
  }

  /** `stoi` of a one-digit base text is that digit. */
  lemma StoiOfSmallBase(baseStr: string)
    requires |baseStr| == 1 && IsDigit(baseStr[0])
    ensures Stoi(baseStr) == Some(DigitValue(baseStr[0]))
  {
    StoiOfDigitLed(baseStr);
    assert DigitPrefix(baseStr) == baseStr;
    assert Horner(baseStr, 10) == Horner([], 10) * 10 + DigitValue(baseStr[0]);
  }

  /** Two ordinates from the sample input: "111" in base 2 and "213" in base 4. */
  lemma ConvertSamples()
    ensures ConvertToDecimal("111", "2") == Success(7)
    ensures ConvertToDecimal("213", "4") == Success(39)
  {
    StoiOfSmallBase("2");
    StoiOfSmallBase("4");
    assert "111"[..2] == "11" && "11"[..1] == "1" && "1"[..0] == "";
    assert "213"[..2] == "21" && "21"[..1] == "2" && "2"[..0] == "";
  }

  /** The digit check rejects a digit at or above the base and nothing else. */
  lemma ConvertDigitCheckEdges()
    ensures ConvertToDecimal("5", "2") == Failure(DigitExceedsBase)
    ensures ConvertToDecimal("1/", "9") == Success(8)      // '/' - '0' == -1 passes the check
    ensures ConvertToDecimal("0", "1") == Success(0)       // a base below 2 is accepted
  {
    StoiOfSmallBase("2");
    StoiOfSmallBase("9");
    StoiOfSmallBase("1");
    assert "1/"[..1] == "1" && "1"[..0] == "";
    assert "0"[..0] == "";
  }

  /** A base text without digits fails the conversion whatever the digits. */
  lemma ConvertNonNumericBase(valueStr: string)
    ensures ConvertToDecimal(valueStr, "b") == Failure(BaseNotNumeric)
  {
    assert DigitPrefix("b") == "";
  }
}
