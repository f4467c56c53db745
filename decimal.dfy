/**
 * Decimal numerals: `int(...)` on the digits captured by `(\d+)` and the `{n}` of an
 * f-string. Request targets reach the handler decoded as ISO-8859-1, and in that range
 * the only characters `\d` matches are the ASCII digits.
 */
module Decimal {

  predicate IsDigit(c: char) {
    '0' <= c <= '9'
  }

  predicate AllDigits(s: seq<char>) {
    forall i :: 0 <= i < |s| ==> IsDigit(s[i])
  }

  /** The way Python prints a non-negative int: no leading zero except in "0" itself. */
  predicate Canonical(s: seq<char>) {
    |s| > 0 && AllDigits(s) && (s[0] == '0' ==> |s| == 1)
  }

  function DigitValue(c: char): (d: nat)
    requires IsDigit(c)
    ensures d < 10
  {
    c as int - '0' as int
  }

  function DigitChar(d: nat): (c: char)
    requires d < 10
    ensures IsDigit(c) && DigitValue(c) == d
  {
    ('0' as int + d) as char
  }

  /** `int(s)` for a run of digits; leading zeros are accepted, as Python accepts them. */
  function ParseDigits(s: seq<char>): (n: nat)
    requires AllDigits(s)
  {
    if s == [] then 0 else 10 * ParseDigits(s[..|s| - 1]) + DigitValue(s[|s| - 1])
  }

  /** `str(n)` for a non-negative int. */
  function ShowNat(n: nat): (s: seq<char>)
    ensures Canonical(s)
    ensures s[0] == '0' <==> n == 0
  {
    if n < 10 then [DigitChar(n)] else ShowNat(n / 10) + [DigitChar(n % 10)]
  }

  /** `str(i)` for any int: a minus sign in front of the magnitude when negative. */
  function ShowInt(i: int): (s: seq<char>)
    ensures 0 <= i ==> Canonical(s) && ParseDigits(s) == i
    ensures i < 0 <==> |s| > 0 && s[0] == '-'
    ensures i < 0 ==> s == ['-'] + ShowNat(-i) && Canonical(s[1..]) && ParseDigits(s[1..]) == -i
  {
    ParseShow(if i < 0 then -i else i);
    if i < 0 then ['-'] + ShowNat(-i) else ShowNat(i)
  }

  /** Reading back what was printed gives the number. */
  lemma {:induction false} ParseShow(n: nat)
    ensures ParseDigits(ShowNat(n)) == n
    decreases n
  {
    var s := ShowNat(n);
    if n < 10 {
      assert s[..0] == [];
    } else {
      assert s[..|s| - 1] == ShowNat(n / 10);
      ParseShow(n / 10);
    }
  }

  lemma {:induction false} ParsePositive(s: seq<char>)
    requires |s| > 0 && AllDigits(s) && s[0] != '0'
    ensures ParseDigits(s) > 0
    decreases |s|
  {
    if |s| > 1 {
      ParsePositive(s[..|s| - 1]);
    } else {
      assert s[..0] == [];
    }
  }

  /** Printing what was read gives the text back exactly when the text has no leading zero. */
  lemma {:induction false} ShowParse(s: seq<char>)
    requires Canonical(s)
    ensures ShowNat(ParseDigits(s)) == s
    decreases |s|
  {
    var last := s[|s| - 1];
    assert DigitChar(DigitValue(last)) == last;
    if |s| == 1 {
      assert s[..0] == [];
    } else {
      var init := s[..|s| - 1];
      assert init[0] == s[0];
      var q, d := ParseDigits(init), DigitValue(last);
      assert ParseDigits(s) == 10 * q + d;
      ParsePositive(init);
      ShowParse(init);
      assert (10 * q + d) / 10 == q && (10 * q + d) % 10 == d;
      assert ShowNat(10 * q + d) == ShowNat(q) + [DigitChar(d)];
      assert s == init + [last];
    }
  }

  /** `int("0" + s) == int(s)`: a numeral with leading zeros reads as the same number. */
  lemma {:induction false} ParseLeadingZero(s: seq<char>)
    requires AllDigits(s)
    ensures ParseDigits(['0'] + s) == ParseDigits(s)
    decreases |s|
  {
    if s != [] {
      var t := ['0'] + s;
      assert t[..|t| - 1] == ['0'] + s[..|s| - 1];
      ParseLeadingZero(s[..|s| - 1]);
    } else {
      assert (['0'] + s)[..0] == [];
    }
  }
}
