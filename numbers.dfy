/**
 * 32-bit integer text conversions used by the core: `int.ToString()` (invariant
 * culture, as `TextInt` and the integer overloads of `ByAttribute`/`ById` use it)
 * and `int.Parse(string)` (as `Extensions.ToInt` uses it).
 */
module Numbers {
  import opened Wrappers

  const Int32Min: int := -0x8000_0000
  const Int32Max: int := 0x7fff_ffff

  /** The value fits a C# `int`. */
  predicate IsInt32(n: int)
  {
    Int32Min <= n <= Int32Max
  }

  predicate IsDigit(c: char)
  {
    '0' <= c <= '9'
  }

  predicate AllDigits(s: string)
  {
    forall i :: 0 <= i < |s| ==> IsDigit(s[i])
  }

  function DigitValue(c: char): nat
    requires IsDigit(c)
  {
    c as int - '0' as int
  }

  function DigitChar(d: nat): (c: char)
    requires d < 10
    ensures IsDigit(c) && DigitValue(c) == d
  {
    (d + '0' as int) as char
  }

  /** Decimal digits of `n`, most significant first, without leading zeros. */
  function NatToDigits(n: nat): (s: string)
    ensures |s| >= 1 && AllDigits(s)
    ensures |s| > 1 ==> s[0] != '0'
  {
    if n < 10 then [DigitChar(n)] else NatToDigits(n / 10) + [DigitChar(n % 10)]
  }

  /** The number a string of decimal digits denotes. */
  function DigitsValue(s: string): nat
    requires AllDigits(s)
  {
    if s == [] then 0 else DigitsValue(s[..|s| - 1]) * 10 + DigitValue(s[|s| - 1])
  }

  /** Reading the digits of `n` back gives `n`. */
  lemma {:induction false} DigitsRoundTrip(n: nat)
    ensures DigitsValue(NatToDigits(n)) == n
  {
    if n >= 10 {
      var s := NatToDigits(n);
      assert s[..|s| - 1] == NatToDigits(n / 10);
      DigitsRoundTrip(n / 10);
    }
  }

  /** `n.ToString(CultureInfo.InvariantCulture)`. */
  function FormatInt(n: int): (s: string)
    ensures s != [] && (s[0] == '-' <==> n < 0)
    ensures forall i :: 0 <= i < |s| ==> IsDigit(s[i]) || (i == 0 && s[i] == '-')
  {
    if n < 0 then "-" + NatToDigits(-n) else NatToDigits(n)
  }

  /** Why `int.Parse` throws: `FormatException` or `OverflowException`. */
  datatype ParseError = FormatError | OverflowError

  /** White space `NumberStyles.Integer` allows around the number. */
  predicate IsParseWhite(c: char)
  {
    c == ' ' || '\t' <= c <= '\r'
  }

  function TrimStartWhite(s: string): (r: string)
    ensures |r| <= |s| && r == s[|s| - |r|..]
    ensures r == [] || !IsParseWhite(r[0])
  {
    if |s| > 0 && IsParseWhite(s[0]) then TrimStartWhite(s[1..]) else s
  }

  function TrimEndWhite(s: string): (r: string)
    ensures |r| <= |s| && r == s[..|r|]
    ensures r == [] || !IsParseWhite(r[|r| - 1])
  {
    if |s| > 0 && IsParseWhite(s[|s| - 1]) then TrimEndWhite(s[..|s| - 1]) else s
  }

  function Signed(negative: bool, magnitude: nat): int
  {
    if negative then -(magnitude as int) else magnitude
  }

  /** The number a trimmed `int.Parse` input denotes: an optional sign and digits. */
  function ParseTrimmed(body: string): (r: Result<int, ParseError>)
    ensures r.Success? ==> IsInt32(r.value)
  {
    var signed := |body| > 0 && (body[0] == '-' || body[0] == '+');
    var digits := if signed then body[1..] else body;
    if |digits| == 0 || !AllDigits(digits) then Failure(FormatError)
    else
      var value := Signed(signed && body[0] == '-', DigitsValue(digits));
      if IsInt32(value) then Success(value) else Failure(OverflowError)
  }

  /**
   * `int.Parse(s)` with the invariant culture: optional white space, an
   * optional `+` or `-`, one or more decimal digits, optional white space;
   * a value outside the 32-bit range overflows.
   */
  function ParseInt32(s: string): (r: Result<int, ParseError>)
    ensures r.Success? ==> IsInt32(r.value)
  {
    ParseTrimmed(TrimEndWhite(TrimStartWhite(s)))
  }

  /** Trimming leaves text alone that neither starts nor ends with white space. */
  lemma TrimUnchanged(s: string)
    requires |s| > 0 && !IsParseWhite(s[0]) && !IsParseWhite(s[|s| - 1])
    ensures TrimEndWhite(TrimStartWhite(s)) == s
  {
  }

  /** A digit string with an optional leading minus parses to its signed value. */
  lemma ParseTrimmedDigits(digits: string, negative: bool)
    requires |digits| > 0 && AllDigits(digits)
    requires IsInt32(Signed(negative, DigitsValue(digits)))
    ensures ParseTrimmed(if negative then "-" + digits else digits)
         == Success(Signed(negative, DigitsValue(digits)))
  {
    if negative {
      var body := "-" + digits;
      assert body[0] == '-';
      assert body[1..] == digits;
    } else {
      assert digits[0] != '-' && digits[0] != '+' by { assert IsDigit(digits[0]); }
    }
  }

  /** Parsing what `FormatInt` prints gives the number back, for every 32-bit value. */
  lemma ParseFormatRoundTrip(n: int)
    requires IsInt32(n)
    ensures ParseInt32(FormatInt(n)) == Success(n)
  {
    var digits := NatToDigits(if n < 0 then -n else n);
    DigitsRoundTrip(if n < 0 then -n else n);
    assert IsDigit(digits[0]) && IsDigit(digits[|digits| - 1]);
    var s := FormatInt(n);
    assert s == if n < 0 then "-" + digits else digits;
    assert s[|s| - 1] == digits[|digits| - 1];
    TrimUnchanged(s);
    ParseTrimmedDigits(digits, n < 0);
  }

  /** The shape `NumberStyles.Integer` accepts once trimmed: an optional sign, then digits. */
  predicate IsNumberText(body: string)
  {
    || (|body| > 0 && AllDigits(body))
    || (|body| > 1 && (body[0] == '-' || body[0] == '+') && AllDigits(body[1..]))
  }

  /**
   * For every input, `int.Parse` reports a format error exactly when the
   * trimmed text is not an optional sign followed by one or more digits.
   */
  lemma ParseFormatErrorIff(s: string)
    ensures ParseInt32(s) == Failure(FormatError) <==> !IsNumberText(TrimEndWhite(TrimStartWhite(s)))
  {
    var body := TrimEndWhite(TrimStartWhite(s));
    if |body| > 0 && AllDigits(body) {
      assert IsDigit(body[0]);
    }
  }

  /** Text that is empty after trimming, or holds a non-digit, is a format error. */
  lemma ParseRejectsNonNumbers()
    ensures ParseInt32("  ") == Failure(FormatError)
    ensures ParseTrimmed("-") == Failure(FormatError)
    ensures ParseTrimmed("12a") == Failure(FormatError)
    ensures ParseTrimmed("+42") == Success(42)
  {
    assert TrimStartWhite("  "[1..]) == [];
    assert "+42"[1..] == "42";
    assert DigitsValue("42") == 42 by {
      assert "42"[..1] == "4";
      assert "4"[..0] == [];
    }
    assert !AllDigits("12a") by { assert !IsDigit("12a"[2]); }
  }
}
