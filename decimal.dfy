/** Decimal text of numbers, as JavaScript writes a number into a template string,
    and the canonical array-index keys of JavaScript arrays. */
module Decimal {
  import opened Wrappers

  predicate IsDigit(c: char) {
    '0' <= c <= '9'
  }

  function Digit(d: nat): (c: char)
    requires d < 10
    ensures IsDigit(c) && DigitValue(c) == d
  {
    (48 + d) as char
  }

  function DigitValue(c: char): nat
    requires IsDigit(c)
  {
    c as int - 48
  }

  /** Decimal text of a natural number, without leading zeros. */
  function NatText(n: nat): (s: string)
    ensures 1 <= |s|
    ensures forall i :: 0 <= i < |s| ==> IsDigit(s[i])
    ensures n < 10 <==> |s| == 1
    decreases n
  {
    if n < 10 then [Digit(n)] else NatText(n / 10) + [Digit(n % 10)]
  }

  /** Decimal text of an integer: `${i}` for an integral JavaScript number. */
  function IntText(i: int): (s: string)
    ensures forall k :: 0 <= k < |s| ==> s[k] != ':'
  {
    if i < 0 then "-" + NatText(-i) else NatText(i)
  }

  lemma {:induction false} NatTextInjective(a: nat, b: nat)
    requires NatText(a) == NatText(b)
    ensures a == b
    decreases a
  {
    if 10 <= a {
      var s := NatText(a);
      assert s[..|s| - 1] == NatText(a / 10) && s[..|s| - 1] == NatText(b / 10);
      assert DigitValue(s[|s| - 1]) == a % 10 == b % 10;
      NatTextInjective(a / 10, b / 10);
    }
  }

  /** Different numbers render as different texts. */
  lemma IntTextInjective(a: int, b: int)
    requires IntText(a) == IntText(b)
    ensures a == b
  {
    assert IntText(a)[0] == IntText(b)[0];
    if a < 0 && b < 0 {
      assert NatText(-a) == IntText(a)[1..] == NatText(-b);
      NatTextInjective(-a, -b);
    } else if 0 <= a && 0 <= b {
      NatTextInjective(a, b);
    }
  }

  /** Value of a string of digits. */
  function Value(s: string): nat
    requires forall i :: 0 <= i < |s| ==> IsDigit(s[i])
    decreases |s|
  {
    if s == [] then 0 else 10 * Value(s[..|s| - 1]) + DigitValue(s[|s| - 1])
  }

  lemma {:induction false} ValueOfNatText(n: nat)
    ensures Value(NatText(n)) == n
    decreases n
  {
    if 10 <= n {
      var s := NatText(n);
      assert s[..|s| - 1] == NatText(n / 10);
      ValueOfNatText(n / 10);
    }
  }

  /** The index a string key denotes on a JavaScript array: a canonical decimal numeral
      below 2^32 - 1; every other key names no element. */
  function ArrayIndex(key: string): (r: Option<nat>)
    ensures r.Some? ==> key == NatText(r.value)
  {
    if key != [] && (forall i :: 0 <= i < |key| ==> IsDigit(key[i])) && (key[0] != '0' || |key| == 1)
       && Value(key) < 0xFFFF_FFFF
    then
      assert key == NatText(Value(key)) by { CanonicalNumeral(key); }
      Some(Value(key))
    else None
  }

  /** Conversely, the numeral of every index below 2^32 - 1 names that index. */
  lemma ArrayIndexOfNumeral(n: nat)
    requires n < 0xFFFF_FFFF
    ensures ArrayIndex(NatText(n)) == Some(n)
  {
    ValueOfNatText(n);
    if 10 <= n {
      NoLeadingZero(n);
    }
  }

  /** The numeral of a number of two or more digits does not start with 0. */
  lemma {:induction false} NoLeadingZero(n: nat)
    requires 10 <= n
    ensures NatText(n)[0] != '0'
    decreases n
  {
    assert NatText(n)[0] == NatText(n / 10)[0];
    if 10 <= n / 10 {
      NoLeadingZero(n / 10);
    }
  }

  lemma {:induction false} CanonicalNumeral(s: string)
    requires s != [] && forall i :: 0 <= i < |s| ==> IsDigit(s[i])
    requires s[0] != '0' || |s| == 1
    ensures s == NatText(Value(s))
    decreases |s|
  {
    var p := s[..|s| - 1];
    if p != [] {
      assert p[0] == s[0];
      CanonicalNumeral(p);
      assert Value(p) >= 1 by { LeadingNonZero(p); }
      assert Value(s) / 10 == Value(p) && Value(s) % 10 == DigitValue(s[|s| - 1]);
      assert s == p + [s[|s| - 1]];
    }
  }

  lemma {:induction false} LeadingNonZero(s: string)
    requires s != [] && forall i :: 0 <= i < |s| ==> IsDigit(s[i])
    requires s[0] != '0'
    ensures Value(s) >= 1
    decreases |s|
  {
    if |s| > 1 {
      assert s[..|s| - 1][0] == s[0];
      LeadingNonZero(s[..|s| - 1]);
    }
  }
}
