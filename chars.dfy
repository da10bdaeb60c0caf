/**
 * Python's character tests `str.isalnum` and `str.isnumeric` and the
 * conversion `int(s)` as the scripts use them on their text buffers.
 *
 * Python consults the whole Unicode database; this model covers the
 * Latin-1 range (U+0000..U+00FF) exactly and treats every character above
 * it as neither a letter nor a numeric character.
 */
module Chars {
  import opened Wrappers

  /** `c.isdecimal()`: the characters `int` accepts as digits. */
  predicate IsDecimal(c: char) {
    '0' <= c <= '9'
  }

  /** `c.isnumeric()`: the decimal digits plus the Latin-1 superscripts and fractions. */
  predicate IsNumeric(c: char) {
    IsDecimal(c) || c == '¹' || c == '²' || c == '³' || c == '¼' || c == '½' || c == '¾'
  }

  /** `c.isalpha()`: ASCII and Latin-1 letters (not the signs × and ÷). */
  predicate IsAlpha(c: char) {
    || 'A' <= c <= 'Z'
    || 'a' <= c <= 'z'
    || c == 'ª' || c == 'µ' || c == 'º'
    || ('À' <= c <= 'ÿ' && c != '×' && c != '÷')
  }

  /** `c.isalnum()`: a letter or a numeric character. */
  predicate IsAlnum(c: char) {
    IsAlpha(c) || IsNumeric(c)
  }

  predicate AllDecimal(s: string) {
    forall i | 0 <= i < |s| :: IsDecimal(s[i])
  }

  predicate AllNumeric(s: string) {
    forall i | 0 <= i < |s| :: IsNumeric(s[i])
  }

  predicate AllAlnum(s: string) {
    forall i | 0 <= i < |s| :: IsAlnum(s[i])
  }

  /** The value of a string of decimal digits, most significant first. */
  function DecimalValue(s: string): nat
    requires AllDecimal(s)
    decreases |s|
  {
    if s == [] then 0 else DecimalValue(s[..|s| - 1]) * 10 + (s[|s| - 1] as int - '0' as int)
  }

  /**
   * `int(s)`: the value of a non-empty run of decimal digits; anything else
   * raises ValueError (None). The text buffers hold no whitespace, sign or
   * underscore, the other characters `int` would accept.
   */
  function ParseInt(s: string): (r: Option<nat>)
    ensures r.Some? <==> s != [] && AllDecimal(s)
  {
    if s != [] && AllDecimal(s) then Some(DecimalValue(s)) else None
  }

  function DigitChar(d: nat): (c: char)
    requires d < 10
    ensures IsDecimal(c) && c as int - '0' as int == d
  {
    ('0' as int + d) as char
  }

  /** `str(n)` for a natural number: its decimal digits without leading zeros. */
  function Show(n: nat): (s: string)
    decreases n
  {
    if n < 10 then [DigitChar(n)] else Show(n / 10) + [DigitChar(n % 10)]
  }

  lemma DecimalValueSnoc(s: string, c: char)
    requires AllDecimal(s) && IsDecimal(c)
    ensures AllDecimal(s + [c])
    ensures DecimalValue(s + [c]) == DecimalValue(s) * 10 + (c as int - '0' as int)
  {
    assert (s + [c])[..|s|] == s;
  }

  /** `int(str(n)) == n`: the number written to the summary file reads back unchanged. */
  lemma {:induction false} ParseShow(n: nat)
    ensures Show(n) != [] && AllDecimal(Show(n))
    ensures ParseInt(Show(n)) == Some(n)
    decreases n
  {
    if n < 10 {
      DecimalValueSnoc([], DigitChar(n));
      assert Show(n) == [] + [DigitChar(n)];
    } else {
      ParseShow(n / 10);
      DecimalValueSnoc(Show(n / 10), DigitChar(n % 10));
      assert n == (n / 10) * 10 + n % 10;
    }
  }

  /** A buffer of at most two digits parses to at most 99. */
  lemma TwoDigitsAtMost99(s: string)
    requires |s| <= 2 && AllDecimal(s)
    ensures DecimalValue(s) <= 99
  {
    if |s| == 2 {
      assert s[..1][..0] == [];
    } else if |s| == 1 {
      assert s[..0] == [];
    }
  }

  /** The parity of a decimal number is the parity of its last digit. */
  lemma ParityOfLastDigit(s: string)
    requires s != [] && AllDecimal(s)
    ensures DecimalValue(s) % 2 == (s[|s| - 1] as int - '0' as int) % 2
  {
    var high := DecimalValue(s[..|s| - 1]);
    var d := s[|s| - 1] as int - '0' as int;
    assert DecimalValue(s) == high * 10 + d;
    EvenPlus(high * 5, d);
  }

  lemma EvenPlus(x: int, d: int)
    ensures (x * 2 + d) % 2 == d % 2
  {
  }

  /**
   * A numeric character that is not a decimal digit passes `isnumeric` but
   * makes `int` raise: the only way a confirmed investment buffer fails to parse.
   */
  lemma NumericButNotParsable()
    ensures IsNumeric('²') && ParseInt("²") == None
    ensures IsNumeric('½') && ParseInt("1½") == None
  {
    assert !IsDecimal("1½"[1]);
  }
}
