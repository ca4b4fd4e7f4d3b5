/**
 * The "select first N rows" input box and the checks made on submit
 * (src/components/ArtDatatable.tsx:118-137): the box only takes decimal digit
 * strings, the text is read with `parseInt(text, 10)`, and the request is
 * refused when that is not a number, is negative, or exceeds the total.
 */
module BulkInput {
  import opened Wrappers

  predicate IsDigit(c: char)
  {
    '0' <= c <= '9'
  }

  /** `/^\d*$/.test(s)`: the whole string is ASCII decimal digits (possibly none). */
  predicate AllDigits(s: string)
  {
    forall i :: 0 <= i < |s| ==> IsDigit(s[i])
  }

  /**
   * The input's change handler: the proposed text replaces the shown text only
   * when it is all digits; otherwise the keystroke is ignored.
   */
  function FilterInput(current: string, proposed: string): (shown: string)
    ensures shown == proposed || shown == current
    ensures AllDigits(shown) <== AllDigits(current)
    ensures shown == proposed <== AllDigits(proposed)
    ensures !AllDigits(proposed) ==> shown == current
  {
    if AllDigits(proposed) then proposed else current
  }

  function DigitValue(c: char): (d: nat)
    requires IsDigit(c)
    ensures d < 10
  {
    c as int - '0' as int
  }

  function DigitChar(d: nat): (c: char)
    requires d < 10
    ensures IsDigit(c) && DigitValue(c) == d
  {
    ('0' as int + d) as char
  }

  /** The value of a string of decimal digits (leading zeros allowed, "" is 0). */
  function DecimalValue(digits: string): nat
    requires AllDigits(digits)
  {
    if digits == [] then 0
    else DecimalValue(digits[..|digits| - 1]) * 10 + DigitValue(digits[|digits| - 1])
  }

  /** Length of the longest prefix of `s` made of decimal digits. */
  function DigitPrefixLength(s: string): (n: nat)
    ensures n <= |s|
    ensures AllDigits(s[..n])
    ensures n < |s| ==> !IsDigit(s[n])
  {
    if s == [] || !IsDigit(s[0]) then 0
    else
      var n := 1 + DigitPrefixLength(s[1..]);
      assert forall i :: 1 <= i < n ==> s[..n][i] == s[1..][..n - 1][i - 1];
      n
  }

  /**
   * `parseInt(text, 10)`: an optional sign, then the longest run of decimal
   * digits; None (NaN) when no digit follows the sign.
   */
  function ParseInt(text: string): Option<int>
  {
    var negative := |text| > 0 && text[0] == '-';
    var rest := if |text| > 0 && (text[0] == '-' || text[0] == '+') then text[1..] else text;
    var n := DigitPrefixLength(rest);
    if n == 0 then None
    else
      var value: int := DecimalValue(rest[..n]);
      Some(if negative then -value else value)
  }

  /** The shortest decimal spelling of a natural number. */
  function Decimal(n: nat): (digits: string)
    ensures digits != [] && AllDigits(digits)
    ensures DecimalValue(digits) == n
    decreases n
  {
    if n < 10 then [DigitChar(n)]
    else
      var init := Decimal(n / 10);
      var digits := init + [DigitChar(n % 10)];
      assert digits[..|digits| - 1] == init;
      digits
  }

  /** On a string of digits `parseInt` reads every character. */
  lemma {:induction false} AllDigitsPrefix(s: string)
    requires AllDigits(s)
    ensures DigitPrefixLength(s) == |s|
  {
    if s != [] {
      AllDigitsPrefix(s[1..]);
    }
  }

  /** On what the input box can hold, `parseInt` is NaN for "" and the decimal value otherwise. */
  lemma ParseIntDigits(text: string)
    requires AllDigits(text)
    ensures text == [] ==> ParseInt(text) == None
    ensures text != [] ==> ParseInt(text) == Some(DecimalValue(text))
  {
    AllDigitsPrefix(text);
    assert text[..|text|] == text;
  }

  /** Writing a number in decimal and parsing it back gives the number. */
  lemma ParseIntDecimal(n: nat)
    ensures ParseInt(Decimal(n)) == Some(n)
  {
    ParseIntDigits(Decimal(n));
  }

  /** Why a bulk-select request is refused; each becomes a warning notice. */
  datatype Rejection =
    | InvalidNumber                       // NaN or negative
    | TooManyRows(requested: int, total: nat)

  /** The submit handler's two checks, in the order it makes them. */
  function Validate(text: string, total: nat): (r: Result<nat, Rejection>)
    ensures r.Ok? <==> ParseInt(text).Some? && 0 <= ParseInt(text).value <= total
    ensures r.Ok? ==> r.value == ParseInt(text).value
    ensures r == Err(InvalidNumber) <==> ParseInt(text).None? || ParseInt(text).value < 0
  {
    match ParseInt(text)
    case None => Err(InvalidNumber)
    case Some(num) =>
      if num < 0 then Err(InvalidNumber)
      else if num > total then Err(TooManyRows(num, total))
      else Ok(num)
  }

  /**
   * For the digit strings the box admits: "" is refused as not a number, a value
   * above the total is refused as too many, and anything else is accepted as is.
   */
  lemma ValidateDigits(text: string, total: nat)
    requires AllDigits(text)
    ensures text == [] ==> Validate(text, total) == Err(InvalidNumber)
    ensures text != [] && DecimalValue(text) > total ==>
      Validate(text, total) == Err(TooManyRows(DecimalValue(text), total))
    ensures text != [] && DecimalValue(text) <= total ==>
      Validate(text, total) == Ok(DecimalValue(text))
  {
    ParseIntDigits(text);
  }
}
