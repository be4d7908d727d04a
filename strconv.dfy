/**
  The two conversions of Go's strconv package that the core relies on:
  `Itoa`, which names a measurement store after the numeric measurement id
  of a result, and `Atoi`, which parses configured measurement ids and the
  numeric keys of index-keyed configuration maps. `int` is 64 bits wide.
 */
module Strconv {
  import opened Wrappers

  const MinInt64: int := -0x8000_0000_0000_0000
  const MaxInt64: int := 0x7FFF_FFFF_FFFF_FFFF

  predicate IsDigit(c: char) {
    '0' <= c <= '9'
  }

  predicate AllDigits(s: string) {
    forall i :: 0 <= i < |s| ==> IsDigit(s[i])
  }

  function DigitValue(c: char): nat
    requires IsDigit(c)
  {
    (c as int) - ('0' as int)
  }

  function DigitChar(d: nat): char
    requires d < 10
  {
    (('0' as int) + d) as char
  }

  /** The value of a string of decimal digits, most significant first. */
  function DigitsValue(s: string): nat
    requires AllDigits(s)
  {
    if s == [] then 0 else DigitsValue(s[..|s| - 1]) * 10 + DigitValue(s[|s| - 1])
  }

  /** The decimal digits of `n` without leading zeros. */
  function NatDigits(n: nat): (s: string)
    ensures |s| > 0 && AllDigits(s)
    ensures |s| > 1 ==> s[0] != '0'
  {
    if n < 10 then [DigitChar(n)] else NatDigits(n / 10) + [DigitChar(n % 10)]
  }

  /** strconv.Itoa: an optional minus sign, then the digits of the magnitude. */
  function Itoa(n: int): string {
    if n < 0 then "-" + NatDigits(-n) else NatDigits(n)
  }

  /**
    strconv.Atoi: one optional sign character ('+' or '-'), then at least
    one decimal digit and nothing else; a value outside the 64-bit range is
    an error as well.
   */
  function Atoi(s: string): (r: Option<int>)
    ensures r.Some? ==> MinInt64 <= r.value <= MaxInt64
    ensures r.Some? ==> |s| > 0 && (IsDigit(s[0]) || s[0] == '+' || s[0] == '-')
  {
    var signed := |s| > 0 && (s[0] == '-' || s[0] == '+');
    var body := if signed then s[1..] else s;
    if body == [] || !AllDigits(body) then None
    else
      var v: int := if |s| > 0 && s[0] == '-' then 0 - (DigitsValue(body) as int) else DigitsValue(body);
      if MinInt64 <= v <= MaxInt64 then Some(v) else None
  }

  lemma {:induction false} DigitsValueOfNatDigits(n: nat)
    ensures DigitsValue(NatDigits(n)) == n
  {
    if n >= 10 {
      var s := NatDigits(n);
      DigitsValueOfNatDigits(n / 10);
      assert s[..|s| - 1] == NatDigits(n / 10);
    }
  }

  /** Parsing what Itoa prints gives the number back, for every 64-bit integer. */
  lemma AtoiOfItoa(n: int)
    requires MinInt64 <= n <= MaxInt64
    ensures Atoi(Itoa(n)) == Some(n)
  {
    if n < 0 {
      DigitsValueOfNatDigits(-n);
      assert Itoa(n)[1..] == NatDigits(-n);
    } else {
      DigitsValueOfNatDigits(n);
    }
  }

  /**
    Atoi accepts spellings that Itoa never prints: a leading '+' and leading
    zeros. Such a string parses, but printing the number gives another string.
   */
  lemma AtoiAcceptsNonCanonical()
    ensures Atoi("+7") == Some(7) && Itoa(7) == "7"
    ensures Atoi("007") == Some(7)
  {
    assert "+7"[1..] == "7";
    assert DigitsValue("7") == 7 by { assert "7"[..0] == ""; }
    assert DigitsValue("007") == 7 by {
      assert "007"[..2] == "00";
      assert "00"[..1] == "0";
      assert "0"[..0] == "";
    }
  }

  /**
    Atoi refuses the empty string and any string with a character other
    than a digit after its first position, so such an id is not a
    measurement number.
   */
  lemma AtoiRejectsNonDigit(s: string, i: nat)
    requires 0 < i < |s| && !IsDigit(s[i])
    ensures Atoi(s) == None
    ensures Atoi("") == None
  {
    var signed := s[0] == '-' || s[0] == '+';
    var body := if signed then s[1..] else s;
    if signed {
      assert body[i - 1] == s[i];
    }
  }
}
