/** Decimal numerals: Python's formatting of integers, C's `atoi` and Python's `int`. */
module Decimal {
  import opened Text

  predicate IsDigit(c: char) {
    '0' <= c <= '9'
  }

  predicate AllDigits(s: string) {
    forall i :: 0 <= i < |s| ==> IsDigit(s[i])
  }

  function Digit(d: nat): char
    requires d < 10
  {
    ('0' as int + d) as char
  }

  function DigitValue(c: char): nat
    requires IsDigit(c)
  {
    c as int - '0' as int
  }

  function OfNat(n: nat): string {
    if n < 10 then [Digit(n)] else OfNat(n / 10) + [Digit(n % 10)]
  }

  /** Python's `f"{n}"`. */
  function Dec(n: int): string {
    if n < 0 then "-" + OfNat(-n) else OfNat(n)
  }

  /** The value of the first `k` characters. */
  function Value(s: string, k: nat): nat
    requires k <= |s| && forall i :: 0 <= i < k ==> IsDigit(s[i])
  {
    if k == 0 then 0 else Value(s, k - 1) * 10 + DigitValue(s[k - 1])
  }

  /** Where the run of digits through position `i` ends. */
  function DigitsEnd(s: string, i: nat): (k: nat)
    requires i <= |s|
    ensures i <= k <= |s|
    ensures forall j :: i <= j < k ==> IsDigit(s[j])
    ensures k < |s| ==> !IsDigit(s[k])
    decreases |s| - i
  {
    if i == |s| || !IsDigit(s[i]) then i else DigitsEnd(s, i + 1)
  }

  /** C's `atoi` on a string that starts with a digit: the value of the leading digits. */
  function Atoi(s: string): nat
    requires s != "" && IsDigit(s[0])
  {
    Value(s, DigitsEnd(s, 0))
  }

  lemma {:induction false} OfNatDigits(n: nat)
    ensures OfNat(n) != "" && AllDigits(OfNat(n))
  {
    if n >= 10 {
      OfNatDigits(n / 10);
    }
  }

  lemma {:induction false} ValueOfPrefix(s: string, t: string, k: nat)
    requires k <= |s| && k <= |t| && s[..k] == t[..k]
    requires forall i :: 0 <= i < k ==> IsDigit(s[i])
    ensures forall i :: 0 <= i < k ==> IsDigit(t[i])
    ensures Value(s, k) == Value(t, k)
  {
    assert forall i :: 0 <= i < k ==> s[..k][i] == s[i] && t[..k][i] == t[i];
    if k > 0 {
      assert s[..k - 1] == s[..k][..k - 1] && t[..k - 1] == t[..k][..k - 1];
      ValueOfPrefix(s, t, k - 1);
    }
  }

  lemma {:induction false} ValueOfNat(n: nat)
    ensures AllDigits(OfNat(n)) && Value(OfNat(n), |OfNat(n)|) == n
  {
    OfNatDigits(n);
    if n >= 10 {
      ValueOfNat(n / 10);
      ValueOfPrefix(OfNat(n / 10), OfNat(n), |OfNat(n / 10)|);
    } else {
      assert Value(OfNat(n), 0) == 0;
    }
  }

  /** `atoi` undoes decimal printing. */
  lemma {:induction false} AtoiOfDec(n: nat)
    ensures Dec(n) != "" && IsDigit(Dec(n)[0]) && Atoi(Dec(n)) == n
  {
    OfNatDigits(n);
    ValueOfNat(n);
  }

  /** `atoi` reads the leading digits and stops at the first other character. */
  lemma {:induction false} AtoiReadsDigits(digits: string, rest: string)
    requires digits != "" && AllDigits(digits) && (rest == "" || !IsDigit(rest[0]))
    ensures Atoi(digits + rest) == Value(digits, |digits|)
  {
    var s := digits + rest;
    assert forall i :: 0 <= i < |digits| ==> s[i] == digits[i];
    assert rest != "" ==> s[|digits|] == rest[0];
    assert DigitsEnd(s, 0) == |digits|;
    ValueOfPrefix(digits, s, |digits|);
  }

  lemma {:induction false} OfNatIsInjective(m: nat, n: nat)
    requires OfNat(m) == OfNat(n)
    ensures m == n
  {
    ValueOfNat(m);
    ValueOfNat(n);
  }

  lemma {:induction false} DecIsInjective(m: int, n: int)
    requires Dec(m) == Dec(n)
    ensures m == n
  {
    var a, b := if m < 0 then -m else m, if n < 0 then -n else n;
    OfNatDigits(a);
    OfNatDigits(b);
    assert m < 0 <==> Dec(m)[0] == '-';
    assert m < 0 ==> Dec(m)[1..] == OfNat(a);
    assert n < 0 ==> Dec(n)[1..] == OfNat(b);
    OfNatIsInjective(a, b);
  }

  function Pow10(k: nat): nat {
    if k == 0 then 1 else 10 * Pow10(k - 1)
  }

  lemma {:induction false} OfNatLength(n: nat, k: nat)
    requires k > 0
    ensures |OfNat(n)| <= k <==> n < Pow10(k)
  {
    if k == 1 {
      assert Pow10(1) == 10;
    } else if n >= 10 {
      OfNatLength(n / 10, k - 1);
    }
    if n >= 10 {
      OfNatDigits(n / 10);
    }
    assert Pow10(k) >= 10 by { Pow10AtLeastTen(k); }
  }

  lemma {:induction false} Pow10AtLeastTen(k: nat)
    requires k > 0
    ensures Pow10(k) >= 10
  {
    if k > 1 {
      Pow10AtLeastTen(k - 1);
    }
  }
}
