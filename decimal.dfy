/**
 * Decimal text of integers, as Java's `Integer.toString`, `String.valueOf`
 * and `Integer.parseInt` write and read it (ASCII digits only).
 */
module Decimal {
  import opened Wrappers
  import opened JavaInts

  predicate IsDigit(c: char) { '0' <= c <= '9' }

  predicate AllDigits(s: string) { forall i :: 0 <= i < |s| ==> IsDigit(s[i]) }

  function DigitChar(d: nat): (c: char)
    requires d < 10
    ensures IsDigit(c) && c as int - '0' as int == d
  {
    (('0' as int) + d) as char
  }

  /** The shortest decimal digits of `n`. */
  function NatToString(n: nat): (s: string)
    decreases n
  {
    if n < 10 then [DigitChar(n)] else NatToString(n / 10) + [DigitChar(n % 10)]
  }

  /** `Integer.toString(n)`: a minus sign for negative numbers, then the digits. */
  function IntToString(n: int): (s: string)
    ensures |s| > 0 && (s[0] == '-' <==> n < 0)
  {
    if n < 0 then
      NatToStringDigits(-n);
      "-" + NatToString(-n)
    else
      NatToStringDigits(n);
      NatToString(n)
  }

  /** The value of a string of decimal digits, most significant first. */
  function DigitsValue(s: string): nat
    requires AllDigits(s)
    decreases |s|
  {
    if s == [] then 0 else DigitsValue(s[..|s| - 1]) * 10 + (s[|s| - 1] as int - '0' as int)
  }

  /** An optional sign and at least one digit: the value they spell, if they do. */
  function SignedValue(s: string): (r: Option<int>)
    ensures r.Some? ==> |s| > 0
  {
    var neg := |s| > 0 && s[0] == '-';
    var digits := if |s| > 0 && (s[0] == '-' || s[0] == '+') then s[1..] else s;
    if |digits| == 0 || !AllDigits(digits) then None
    else
      var d: int := DigitsValue(digits);
      Some(if neg then -d else d)
  }

  /**
   * `Integer.parseInt(s)`: an optional sign and at least one digit, whose value
   * must fit in 32 bits; anything else raises NumberFormatException.
   */
  function ParseInt(s: string): (r: Result<Int32>)
    ensures r.Success? ==> |s| > 0
    ensures r.Failure? ==> r.error == NumberFormat(s)
    ensures r.Success? ==> ParseLong(s) == Success(r.value)
  {
    var v := SignedValue(s);
    if v.Some? && IsInt32(v.value) then Success(v.value) else Failure(NumberFormat(s))
  }

  /** `Long.parseLong(s)`: as `parseInt`, with a 64-bit range. */
  function ParseLong(s: string): (r: Result<Int64>)
    ensures r.Success? ==> |s| > 0
    ensures r.Failure? ==> r.error == NumberFormat(s)
    ensures r.Success? && r.value < 0 ==> s[0] == '-'
  {
    var v := SignedValue(s);
    if v.Some? && IsInt64(v.value) then Success(v.value) else Failure(NumberFormat(s))
  }

  lemma {:induction false} NatToStringDigits(n: nat)
    ensures |NatToString(n)| > 0 && AllDigits(NatToString(n))
    ensures DigitsValue(NatToString(n)) == n
    ensures NatToString(n)[0] != '-'
  {
    if n >= 10 {
      NatToStringDigits(n / 10);
      var s := NatToString(n);
      assert s[..|s| - 1] == NatToString(n / 10);
    }
  }

  /** The position of the first `c` in `s`, or `|s|` (`indexOf`, with the end standing for -1). */
  function IndexOf(s: string, c: char): (k: nat)
    ensures k <= |s|
    ensures forall i :: 0 <= i < k ==> s[i] != c
    ensures k < |s| ==> s[k] == c
  {
    if s == [] then 0 else if s[0] == c then 0 else 1 + IndexOf(s[1..], c)
  }

  /** A number's decimal text holds digits and a minus sign only: no other separator occurs in it. */
  lemma IntToStringWithout(n: int, c: char)
    requires !IsDigit(c) && c != '-'
    ensures forall i :: 0 <= i < |IntToString(n)| ==> IntToString(n)[i] != c
  {
    if n < 0 {
      NatToStringDigits(-n);
    } else {
      NatToStringDigits(n);
    }
  }

  /** The regular expression `-?\d+`: an optional minus sign, then at least one digit. */
  predicate SignedDigits(t: string)
  {
    if |t| > 0 && t[0] == '-' then |t| > 1 && AllDigits(t[1..]) else |t| > 0 && AllDigits(t)
  }

  /** A number's decimal text matches `-?\d+`. */
  lemma SignedDigitsOfInt(n: int)
    ensures SignedDigits(IntToString(n))
  {
    if n < 0 {
      NatToStringDigits(-n);
      assert IntToString(n)[1..] == NatToString(-n);
    } else {
      NatToStringDigits(n);
    }
  }

  /** The decimal text of a number spells that number. */
  lemma SignedValueToString(n: int)
    ensures SignedValue(IntToString(n)) == Some(n)
  {
    if n < 0 {
      var m: int := 0 - n;
      NatToStringDigits(m);
      assert IntToString(n)[1..] == NatToString(m);
    } else {
      NatToStringDigits(n);
    }
  }

  /** Reading back what `Integer.toString` writes gives the number again. */
  lemma ParseIntToString(n: Int32)
    ensures ParseInt(IntToString(n)) == Success(n)
  {
    SignedValueToString(n);
  }

  /** Reading back what `Long.toString` writes gives the number again. */
  lemma ParseLongToString(n: Int64)
    ensures ParseLong(IntToString(n)) == Success(n)
  {
    SignedValueToString(n);
  }
}
