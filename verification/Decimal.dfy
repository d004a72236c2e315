/** The decimal strings through which the code composes and splits addresses: to_string, stoi. */
module Decimal {

  function Digit(d: nat): char
    requires d < 10
  {
    "0123456789"[d]
  }

  function ToString(n: nat): (s: string)
    ensures |s| >= 1
  {
    if n < 10 then [Digit(n)] else ToString(n / 10) + [Digit(n % 10)]
  }

  function IntToString(n: int): (s: string)
    ensures |s| >= 1
  {
    if n < 0 then "-" + ToString(-n) else ToString(n)
  }

  predicate IsDigit(ch: char) {
    '0' <= ch <= '9'
  }

  function DigitValue(ch: char): (d: nat)
    requires IsDigit(ch)
    ensures d < 10
  {
    (ch - '0') as int
  }

  /** stoi stops at the first character that is not a digit. */
  function ParseFrom(s: string, acc: nat): nat {
    if s == "" || !IsDigit(s[0]) then acc else ParseFrom(s[1..], 10 * acc + DigitValue(s[0]))
  }

  /** stoi on the strings the code gives it, which all start with a digit. */
  function Stoi(s: string): nat {
    ParseFrom(s, 0)
  }

  predicate AllDigits(s: string) {
    forall ch | ch in s :: IsDigit(ch)
  }

  lemma {:induction false} ParseAppend(s: string, t: string, acc: nat)
    requires AllDigits(s)
    ensures ParseFrom(s + t, acc) == ParseFrom(t, ParseFrom(s, acc))
    decreases |s|
  {
    if s == "" {
      assert s + t == t;
    } else {
      assert (s + t)[1..] == s[1..] + t;
      ParseAppend(s[1..], t, 10 * acc + DigitValue(s[0]));
    }
  }

  lemma {:induction false} ToStringIsDigits(n: nat)
    ensures AllDigits(ToString(n))
  {
    if n >= 10 {
      ToStringIsDigits(n / 10);
    }
  }

  lemma ParseDigit(d: nat, acc: nat)
    requires d < 10
    ensures ParseFrom([Digit(d)], acc) == 10 * acc + d
  {
    assert [Digit(d)][1..] == "";
  }

  /** stoi undoes to_string. */
  lemma {:induction false} StoiOfToString(n: nat)
    ensures Stoi(ToString(n)) == n
  {
    if n < 10 {
      ParseDigit(n, 0);
    } else {
      StoiOfToString(n / 10);
      ToStringIsDigits(n / 10);
      ParseAppend(ToString(n / 10), [Digit(n % 10)], 0);
      ParseDigit(n % 10, n / 10);
    }
  }

  /** Joining the strings of a number and of a digit appends the digit to the number. */
  lemma JoinAppendsDigit(x: nat, b: nat)
    requires b < 10
    ensures Stoi(ToString(x) + ToString(b)) == 10 * x + b
  {
    StoiOfToString(x);
    ToStringIsDigits(x);
    ParseAppend(ToString(x), ToString(b), 0);
    ParseDigit(b, x);
  }
}
