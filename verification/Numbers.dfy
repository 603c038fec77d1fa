/**
 Number literals: the exact `ParseInt(text, 10, 64)` and the int-or-float decision of
 `parseNumber`.  `ParseFloat` is a parameter: any partial function from spellings to reals.
 */
module Numbers {
  import opened Common
  import opened Chars

  const MIN_INT64: int := -0x8000_0000_0000_0000
  const MAX_INT64: int := 0x7fff_ffff_ffff_ffff

  type FloatParser = string -> Option<real>

  datatype Number = Int64(i: int) | Float64(r: real)

  predicate InInt64(v: int) {
    MIN_INT64 <= v <= MAX_INT64
  }

  predicate AllDigits(s: string) {
    forall k :: 0 <= k < |s| ==> IsDigit(s[k])
  }

  function DigitsValue(s: string): nat
    requires AllDigits(s)
  {
    if s == "" then 0 else DigitsValue(s[..|s| - 1]) * 10 + (s[|s| - 1] as int - '0' as int)
  }

  function ParseInt(s: string): Option<int> {
    var signed := s != "" && (s[0] == '+' || s[0] == '-');
    var digits := if signed then s[1..] else s;
    if digits == "" || !AllDigits(digits) then None
    else
      var n: int := DigitsValue(digits);
      var v := if signed && s[0] == '-' then -n else n;
      if InInt64(v) then Some(v) else None
  }

  predicate HasPointOrExponent(s: string) {
    exists k :: 0 <= k < |s| && (s[k] == '.' || s[k] == 'e' || s[k] == 'E')
  }

  function ParseNumber(pf: FloatParser, s: string): Option<Number> {
    if !HasPointOrExponent(s) && ParseInt(s).Some? then
      Some(Int64(ParseInt(s).value))
    else
      match pf(s)
      case Some(r) => Some(Float64(r))
      case None => None
  }

  // ---------- What a number literal stands for ----------

  function Unsigned(s: string): string {
    if s != "" && (s[0] == '+' || s[0] == '-') then s[1..] else s
  }

  /** Digits with an optional sign. */
  predicate IsInteger(s: string) {
    Unsigned(s) != "" && AllDigits(Unsigned(s))
  }

  /** The integer such a spelling denotes in decimal. */
  function IntegerValue(s: string): int
    requires IsInteger(s)
  {
    var n: int := DigitsValue(Unsigned(s));
    if s[0] == '-' then -n else n
  }

  predicate IsSign(s: string) {
    s == "" || s == "+" || s == "-"
  }

  /** The integer spellings are digits, alone or after a sign. */
  lemma {:induction false} IntegerExactly(sign: string, digits: string)
    requires IsSign(sign) && digits != "" && AllDigits(digits)
    ensures IsInteger(sign + digits)
    ensures var n: int := DigitsValue(digits); IntegerValue(sign + digits) == if sign == "-" then -n else n
  {
    hide DigitsValue;
    if sign == "" {
      assert sign + digits == digits && IsDigit(digits[0]);
    } else {
      assert (sign + digits)[1..] == digits;
    }
  }

  lemma {:induction false} IntegerParts(s: string) returns (sign: string, digits: string)
    requires IsInteger(s)
    ensures s == sign + digits && IsSign(sign) && digits != "" && AllDigits(digits)
    ensures '.' !in s && 'e' !in s && 'E' !in s
  {
    digits := Unsigned(s);
    sign := if digits == s then "" else [s[0]];
    assert s == sign + digits;
    assert forall c <- s :: c in sign || c in digits;
  }

  function Power10(n: nat): nat {
    if n == 0 then 1 else 10 * Power10(n - 1)
  }

  /** Digits have the value of their places. */
  lemma {:induction false} PlaceValue(a: string, b: string)
    requires AllDigits(a) && AllDigits(b)
    ensures AllDigits(a + b)
    ensures DigitsValue(a + b) == DigitsValue(a) * Power10(|b|) + DigitsValue(b)
    decreases |b|
  {
    if b == "" {
      assert a + b == a;
    } else {
      var n := |b| - 1;
      PlaceValue(a, b[..n]);
      assert (a + b)[..|a + b| - 1] == a + b[..n];
      assert DigitsValue(a) * Power10(|b|) == DigitsValue(a) * Power10(n) * 10;
    }
  }

  lemma {:induction false} DigitValue(d: nat)
    requires d < 10
    ensures DigitsValue([DIGITS[d]]) == d
  {
    assert DIGITS[d] == ('0' as int + d) as char;
    assert [DIGITS[d]][..0] == "";
  }

  /** `ParseInt` reads the integer spellings whose integer has 64 bits, and nothing else. */
  lemma ParseIntExactly(s: string)
    ensures ParseInt(s).Some? <==> IsInteger(s) && InInt64(IntegerValue(s))
    ensures ParseInt(s).Some? ==> ParseInt(s).value == IntegerValue(s)
  {
  }

  /**
   A spelling stands for the integer it denotes when that has 64 bits, and otherwise, as with
   a point or an exponent, for what the float parser makes of it, if anything.
   */
  lemma {:induction false} ParseNumberExactly(pf: FloatParser, s: string)
    ensures IsInteger(s) && InInt64(IntegerValue(s)) ==> ParseNumber(pf, s) == Some(Int64(IntegerValue(s)))
    ensures !(IsInteger(s) && InInt64(IntegerValue(s))) ==>
      && (forall r :: ParseNumber(pf, s) == Some(Float64(r)) <==> pf(s) == Some(r))
      && (ParseNumber(pf, s).None? <==> pf(s).None?)
  {
    ParseIntExactly(s);
    if IsInteger(s) {
      var _, _ := IntegerParts(s);
    }
  }

  /** A spelling `ParseInt` accepts is read as that very integer by `ParseNumber`. */
  lemma {:induction false} ParseNumberOfInt(pf: FloatParser, s: string)
    requires ParseInt(s).Some?
    ensures ParseNumber(pf, s) == Some(Int64(ParseInt(s).value))
  {
    ParseIntExactly(s);
    ParseNumberExactly(pf, s);
  }

  function DigitChar(d: nat): char
    requires d < 10
  {
    (d + '0' as int) as char
  }

  /** Decimal spelling of a natural number. */
  function NatText(n: nat): (s: string)
    ensures |s| > 0 && AllDigits(s) && (|s| > 1 ==> s[0] != '0')
    ensures n > 0 ==> s[0] != '0'
  {
    if n < 10 then [DigitChar(n)] else NatText(n / 10) + [DigitChar(n % 10)]
  }

  function IntText(v: int): string {
    if v < 0 then "-" + NatText(-v) else NatText(v)
  }

  lemma {:induction false} DigitsValueOfNatText(n: nat)
    ensures DigitsValue(NatText(n)) == n
  {
    var s := NatText(n);
    if n < 10 {
      assert s[..|s| - 1] == "";
    } else {
      DigitsValueOfNatText(n / 10);
      assert s[..|s| - 1] == NatText(n / 10);
    }
  }

  /** Every int64 value is read back from its decimal spelling. */
  lemma {:induction false} ParseIntOfIntText(v: int)
    requires InInt64(v)
    ensures ParseInt(IntText(v)) == Some(v)
  {
    if v < 0 {
      DigitsValueOfNatText(-v);
      assert IntText(v)[1..] == NatText(-v);
    } else {
      DigitsValueOfNatText(v);
      assert IsDigit(IntText(v)[0]);
    }
  }
}
