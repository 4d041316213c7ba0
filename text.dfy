/**
 * The library string routines the core relies on: byte-wise ASCII case
 * mapping (strings.ToLower, strings.ToUpper), strconv.Atoi on a 64-bit
 * platform, and the decimal rendering of an int used by fmt's %d verb.
 */
module Text {
  import opened Wrappers

  predicate IsUpperLetter(c: char) { 'A' <= c <= 'Z' }
  predicate IsLowerLetter(c: char) { 'a' <= c <= 'z' }

  function LowerChar(c: char): char { if IsUpperLetter(c) then (c as int + 32) as char else c }
  function UpperChar(c: char): char { if IsLowerLetter(c) then (c as int - 32) as char else c }

  /** The string with every ASCII upper-case letter replaced by its lower-case form. */
  function ToLower(s: string): (r: string)
    ensures |r| == |s|
    ensures forall i :: 0 <= i < |s| ==> !IsUpperLetter(r[i]) && UpperChar(r[i]) == UpperChar(s[i])
  {
    seq(|s|, i requires 0 <= i < |s| => LowerChar(s[i]))
  }

  /** The string with every ASCII lower-case letter replaced by its upper-case form. */
  function ToUpper(s: string): (r: string)
    ensures |r| == |s|
    ensures forall i :: 0 <= i < |s| ==> !IsLowerLetter(r[i]) && LowerChar(r[i]) == LowerChar(s[i])
  {
    seq(|s|, i requires 0 <= i < |s| => UpperChar(s[i]))
  }

  /** Lower-casing twice is lower-casing once, so a stored lower-cased key is found again. */
  lemma ToLowerIdempotent(s: string)
    ensures ToLower(ToLower(s)) == ToLower(s)
  {
  }

  /** The only strings that upper-case to the one-letter string [c] are [c] and its lower-case form. */
  lemma ToUpperSingleLetter(s: string, c: char)
    requires IsUpperLetter(c)
    ensures ToUpper(s) == [c] <==> s == [c] || s == [LowerChar(c)]
  {
    if ToUpper(s) == [c] {
      assert |s| == 1;
      assert UpperChar(s[0]) == c;
      assert s == [s[0]];
    }
  }

  // ---------------------------------------------------------------- numbers

  const IntMin: int := -0x8000_0000_0000_0000
  const IntMax: int := 0x7fff_ffff_ffff_ffff

  predicate IsDigit(c: char) { '0' <= c <= '9' }

  predicate AllDigits(s: string) { forall i :: 0 <= i < |s| ==> IsDigit(s[i]) }

  /** The value of a string of decimal digits, most significant digit first. */
  function DigitsValue(s: string): nat
    requires AllDigits(s)
  {
    if s == [] then 0 else DigitsValue(s[..|s| - 1]) * 10 + (s[|s| - 1] as int - '0' as int)
  }

  /**
   * strconv.Atoi: an optional '+' or '-', then at least one decimal digit;
   * a value outside the 64-bit int range is an error, as is anything else.
   */
  function Atoi(s: string): (r: Option<int>)
    ensures r.Some? ==> s != [] && IntMin <= r.value <= IntMax
    ensures r.Some? && r.value < 0 ==> s[0] == '-'
  {
    var signed := |s| > 0 && (s[0] == '+' || s[0] == '-');
    var digits := if signed then s[1..] else s;
    if digits == [] || !AllDigits(digits) then None
    else
      var n: int := if signed && s[0] == '-' then 0 - (DigitsValue(digits) as int) else DigitsValue(digits);
      if IntMin <= n <= IntMax then Some(n) else None
  }

  function DigitChar(d: nat): char
    requires d < 10
  {
    ('0' as int + d) as char
  }

  /** The decimal digits of n without leading zeros. */
  function NatString(n: nat): (r: string)
    ensures r != [] && AllDigits(r)
    ensures |r| > 1 ==> r[0] != '0'
  {
    if n < 10 then [DigitChar(n)] else NatString(n / 10) + [DigitChar(n % 10)]
  }

  /** fmt's %d (and strconv.Itoa) for an int: a '-' exactly for a negative n, then its digits. */
  function DecimalString(n: int): (r: string)
    ensures r != [] && (r[0] == '-' <==> n < 0)
    ensures AllDigits(if n < 0 then r[1..] else r)
  {
    if n < 0 then "-" + NatString(-n) else NatString(n)
  }

  lemma {:induction false} NatStringValue(n: nat)
    ensures DigitsValue(NatString(n)) == n
  {
    if n >= 10 {
      var s := NatString(n);
      assert s[..|s| - 1] == NatString(n / 10);
      NatStringValue(n / 10);
    }
  }

  /** Atoi reads back every int that %d writes. */
  lemma AtoiDecimalString(n: int)
    requires IntMin <= n <= IntMax
    ensures Atoi(DecimalString(n)) == Some(n)
  {
    var s := DecimalString(n);
    if n < 0 {
      var digits := NatString(-n);
      assert s == "-" + digits && s[0] == '-' && s[1..] == digits;
      NatStringValue(-n);
    } else {
      assert s == NatString(n) && s[0] != '+' && s[0] != '-';
      NatStringValue(n);
    }
  }
}
