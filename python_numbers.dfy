/** Python's `int(str)`, `str(int)` and the grammar `float(str)` accepts for
    literals with a decimal point. */
module PyNumbers {
  import opened PyValues
  import opened PyText

  /** Decimal digits in which a single underscore may separate two digits. */
  predicate IsDigitPart(s: string) {
    && s != []
    && IsDigit(s[0]) && IsDigit(s[|s| - 1])
    && (forall i :: 0 <= i < |s| ==> IsDigit(s[i]) || s[i] == '_')
    && (forall i :: 0 <= i < |s| - 1 && s[i] == '_' ==> IsDigit(s[i + 1]))
  }

  /** The number the digits of `s` spell, underscores ignored. */
  function DigitsValue(s: string): nat
    decreases |s|
  {
    if s == [] then 0
    else if IsDigit(s[|s| - 1]) then DigitsValue(s[..|s| - 1]) * 10 + ((s[|s| - 1] as int) - ('0' as int))
    else DigitsValue(s[..|s| - 1])
  }

  /** `int(s)`; `None` where Python raises `ValueError`. Plain digits read
      as the number they spell; a blank text is refused; a negative number
      needs a leading minus sign. */
  function ParseInt(s: string): (r: Option<int>)
    ensures StripSpaces(s) == [] ==> r.None?
    ensures IsDigitPart(StripSpaces(s)) ==> r == Some(DigitsValue(StripSpaces(s)))
    ensures r.Some? && r.value < 0 ==> StripSpaces(s)[0] == '-'
  {
    var t := StripSpaces(s);
    if t != [] && (t[0] == '-' || t[0] == '+') && IsDigitPart(t[1..]) then
      var magnitude: int := DigitsValue(t[1..]);
      Some(if t[0] == '-' then -magnitude else magnitude)
    else if IsDigitPart(t) then Some(DigitsValue(t))
    else None
  }

  function NatToString(n: nat): (r: string)
    ensures r != [] && forall i :: 0 <= i < |r| ==> IsDigit(r[i])
  {
    if n < 10 then [('0' as int + n) as char]
    else NatToString(n / 10) + [('0' as int + n % 10) as char]
  }

  /** `str(n)` for an int: a minus sign exactly for a negative number, then
      digits. */
  function IntToString(n: int): (r: string)
    ensures r != [] && (r[0] == '-' <==> n < 0)
    ensures forall i :: 0 <= i < |r| ==> IsDigit(r[i]) || (i == 0 && r[i] == '-')
  {
    if n < 0 then "-" + NatToString(-n) else NatToString(n)
  }

  lemma {:induction false} NatToStringValue(n: nat)
    ensures DigitsValue(NatToString(n)) == n
  {
    if n >= 10 {
      NatToStringValue(n / 10);
      var s := NatToString(n);
      assert s[..|s| - 1] == NatToString(n / 10);
    }
  }

  lemma StripSpacesUnchanged(s: string)
    requires s != [] ==> !IsSpace(s[0]) && !IsSpace(s[|s| - 1])
    ensures StripSpaces(s) == s
  {
  }

  /** `int(str(n)) == n`. */
  lemma {:induction false} ParseIntToString(n: int)
    ensures ParseInt(IntToString(n)) == Some(n)
  {
    var s := IntToString(n);
    var digits := NatToString(if n < 0 then -n else n);
    NatToStringValue(if n < 0 then -n else n);
    assert IsDigitPart(digits);
    StripSpacesUnchanged(s);
    if n < 0 {
      assert s[1..] == digits;
    }
  }

  predicate IsExponent(x: string) {
    && |x| >= 2 && (x[0] == 'e' || x[0] == 'E')
    && (IsDigitPart(x[1..]) || ((x[1] == '+' || x[1] == '-') && IsDigitPart(x[2..])))
  }

  /** Digits around a decimal point: `1.5`, `1.`, `.5`. */
  predicate IsPointMantissa(m: string) {
    exists d :: 0 <= d < |m| && m[d] == '.' &&
      ((IsDigitPart(m[..d]) && (d + 1 == |m| || IsDigitPart(m[d + 1..]))) || (d == 0 && IsDigitPart(m[1..])))
  }

  /** `float(s)` accepts `s`, a literal that holds a decimal point; `int()`
      refuses every such literal. */
  predicate IsFloatLiteral(s: string): (r: bool)
    ensures r ==> '.' in StripSpaces(s) && ParseInt(s).None?
  {
    var t := StripSpaces(s);
    var u := if t != [] && (t[0] == '+' || t[0] == '-') then t[1..] else t;
    var m := Mantissa(u);
    IsPointMantissa(m) && (m == u || IsExponent(u[|m|..]))
  }
}
