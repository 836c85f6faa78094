/** The Python string operations the server applies to Telegram texts, on their ASCII part. */
module PythonText {
  import opened Text
  import opened Decimal

  predicate IsSpace(c: char) {
    c == ' ' || '\t' <= c <= '\r' || '\U{1c}' <= c <= '\U{1f}'
  }

  function StripLeft(s: string): string {
    if s != "" && IsSpace(s[0]) then StripLeft(s[1..]) else s
  }

  function StripRight(s: string): string {
    if s != "" && IsSpace(s[|s| - 1]) then StripRight(s[..|s| - 1]) else s
  }

  /** `s.strip()`. */
  function Strip(s: string): string {
    StripRight(StripLeft(s))
  }

  function LowerChar(c: char): char {
    if 'A' <= c <= 'Z' then (c as int + 32) as char else c
  }

  /** `s.lower()`. */
  function Lower(s: string): string {
    seq(|s|, i requires 0 <= i < |s| => LowerChar(s[i]))
  }

  /** `s.split(c, limit)`. */
  function SplitAtMost(s: string, c: char, limit: nat): (parts: seq<string>)
    ensures 1 <= |parts| <= limit + 1
  {
    var k := Find(s, c);
    if limit == 0 || k == |s| then [s] else [s[..k]] + SplitAtMost(s[k + 1..], c, limit - 1)
  }

  /** Digits, with single underscores allowed between them. */
  predicate IsNumeral(s: string) {
    s != "" && IsDigit(s[0]) && IsDigit(s[|s| - 1]) &&
    (forall i :: 0 <= i < |s| ==> IsDigit(s[i]) || s[i] == '_') &&
    (forall i :: 1 <= i < |s| ==> IsDigit(s[i - 1]) || IsDigit(s[i]))
  }

  function NumeralValue(s: string, k: nat): nat
    requires IsNumeral(s) && k <= |s|
  {
    if k == 0 then 0
    else if s[k - 1] == '_' then NumeralValue(s, k - 1)
    else NumeralValue(s, k - 1) * 10 + DigitValue(s[k - 1])
  }

  /** `int(s)`, or None where it raises ValueError. */
  function ToInt(text: string): Option<int> {
    var s := Strip(text);
    var signed := s != "" && (s[0] == '-' || s[0] == '+');
    var body := if signed then s[1..] else s;
    if !IsNumeral(body) then None
    else
      var n: int := NumeralValue(body, |body|);
      Some(if signed && s[0] == '-' then -n else n)
  }

  lemma {:induction false} StripIsIdentity(s: string)
    requires s == "" || (!IsSpace(s[0]) && !IsSpace(s[|s| - 1]))
    ensures Strip(s) == s
  {
  }

  lemma {:induction false} NumeralValueOfDigits(s: string, k: nat)
    requires s != "" && AllDigits(s) && k <= |s|
    ensures NumeralValue(s, k) == Value(s, k)
  {
    if k > 0 {
      NumeralValueOfDigits(s, k - 1);
    }
  }

  /** `int` undoes decimal printing. */
  lemma {:induction false} ToIntOfDec(n: int)
    ensures ToInt(Dec(n)) == Some(n)
  {
    var m := if n < 0 then -n else n;
    var digits := OfNat(m);
    ValueOfNat(m);
    OfNatDigits(m);
    NumeralValueOfDigits(digits, |digits|);
    StripIsIdentity(Dec(n));
    assert n < 0 ==> Dec(n)[1..] == digits;
  }

  // ----- the operations, character by character -----

  /** The whitespace of ASCII: tab to carriage return, the four separators, and the space. */
  lemma {:induction false} SpacesAre(c: char)
    ensures IsSpace(c) <==> c as int in {9, 10, 11, 12, 13, 28, 29, 30, 31, 32}
  {
  }

  predicate AllSpaces(s: string) {
    forall i :: 0 <= i < |s| ==> IsSpace(s[i])
  }

  lemma {:induction false} StripLeftTrims(s: string) returns (front: string)
    ensures s == front + StripLeft(s) && AllSpaces(front)
    ensures StripLeft(s) != "" ==> !IsSpace(StripLeft(s)[0])
  {
    front := "";
    if s != "" && IsSpace(s[0]) {
      var rest := StripLeftTrims(s[1..]);
      front := [s[0]] + rest;
    }
  }

  lemma {:induction false} StripRightTrims(s: string) returns (back: string)
    ensures s == StripRight(s) + back && AllSpaces(back)
    ensures StripRight(s) != "" ==> !IsSpace(StripRight(s)[|StripRight(s)| - 1])
  {
    back := "";
    if s != "" && IsSpace(s[|s| - 1]) {
      var rest := StripRightTrims(s[..|s| - 1]);
      back := rest + [s[|s| - 1]];
    }
  }

  /** `strip` takes whitespace off both ends, and all of it. */
  lemma {:induction false} StripTrims(s: string) returns (front: string, back: string)
    ensures s == front + Strip(s) + back && AllSpaces(front) && AllSpaces(back)
    ensures Strip(s) != "" ==> !IsSpace(Strip(s)[0]) && !IsSpace(Strip(s)[|Strip(s)| - 1])
    ensures Strip(s) == "" <==> AllSpaces(s)
  {
    front := StripLeftTrims(s);
    back := StripRightTrims(StripLeft(s));
    assert s == front + (Strip(s) + back);
    if Strip(s) != "" {
      assert Strip(s)[0] == StripLeft(s)[0];
      assert s[|front|] == Strip(s)[0];
    }
  }

  /** Trimming is determined by that: a text without whitespace at its ends is what is left of it in any padding. */
  lemma {:induction false} StripOfPadded(front: string, text: string, back: string)
    requires AllSpaces(front) && AllSpaces(back)
    requires text != "" && !IsSpace(text[0]) && !IsSpace(text[|text| - 1])
    ensures Strip(front + text + back) == text
  {
    StripLeftOfPadded(front, text + back);
    assert front + text + back == front + (text + back);
    StripRightOfPadded(text, back);
  }

  lemma {:induction false} StripLeftOfPadded(front: string, text: string)
    requires AllSpaces(front) && text != "" && !IsSpace(text[0])
    ensures StripLeft(front + text) == text
  {
    if front == "" {
      assert front + text == text;
    } else {
      assert (front + text)[1..] == front[1..] + text;
      StripLeftOfPadded(front[1..], text);
    }
  }

  lemma {:induction false} StripRightOfPadded(text: string, back: string)
    requires AllSpaces(back) && text != "" && !IsSpace(text[|text| - 1])
    ensures StripRight(text + back) == text
  {
    if back == "" {
      assert text + back == text;
    } else {
      assert (text + back)[..|text + back| - 1] == text + back[..|back| - 1];
      StripRightOfPadded(text, back[..|back| - 1]);
    }
  }

  /** The text is the word in some mixture of its small and its capital letters. */
  predicate IsInAnyCase(text: string, small: string, capital: string)
    requires |small| == |capital|
  {
    |text| == |small| && forall i :: 0 <= i < |text| ==> text[i] == small[i] || text[i] == capital[i]
  }

  const SMALL := "abcdefghijklmnopqrstuvwxyz"
  const CAPITAL := "ABCDEFGHIJKLMNOPQRSTUVWXYZ"

  /** `lower` turns each capital letter into its small one and keeps every other character. */
  lemma {:induction false} LowerIsByLetter(s: string, i: nat)
    requires i < |s|
    ensures |Lower(s)| == |s|
    ensures forall j :: 0 <= j < 26 && s[i] == CAPITAL[j] ==> Lower(s)[i] == SMALL[j]
    ensures s[i] !in CAPITAL ==> Lower(s)[i] == s[i]
  {
    if 'A' <= s[i] <= 'Z' {
      assert CAPITAL[s[i] as int - 'A' as int] == s[i];
    }
  }

  /** From this position on, digits with single underscores between them. */
  predicate IsNumeralFrom(t: string, first: nat) {
    && first < |t| && '0' <= t[first] <= '9' && '0' <= t[|t| - 1] <= '9'
    && (forall i :: first <= i < |t| ==> '0' <= t[i] <= '9' || t[i] == '_')
    && (forall i :: first <= i < |t| - 1 ==> t[i] != '_' || t[i + 1] != '_')
  }

  lemma {:induction false} NumeralOfTail(t: string, first: nat)
    requires first <= |t|
    ensures IsNumeral(t[first..]) ==> IsNumeralFrom(t, first)
  {
    var body := t[first..];
    if IsNumeral(body) {
      forall i | first <= i < |t| ensures '0' <= t[i] <= '9' || t[i] == '_' {
        assert t[i] == body[i - first];
      }
      forall i | first <= i < |t| - 1 ensures t[i] != '_' || t[i + 1] != '_' {
        assert t[i] == body[i - first] && t[i + 1] == body[i + 1 - first];
      }
      assert t[first] == body[0] && t[|t| - 1] == body[|body| - 1];
    }
  }

  lemma {:induction false} TailIsNumeral(t: string, first: nat)
    requires first <= |t| && IsNumeralFrom(t, first)
    ensures IsNumeral(t[first..])
  {
    var body := t[first..];
    forall i | 1 <= i < |body| ensures IsDigit(body[i - 1]) || IsDigit(body[i]) {
      assert t[first + i - 1] == body[i - 1] && t[first + (i - 1) + 1] == body[i];
    }
  }

  /** Which texts `int` accepts: in whitespace, perhaps a sign, then digits with single underscores between them. */
  lemma {:induction false} ToIntAccepts(text: string)
    ensures var t := Strip(text);
      ToInt(text).Some? <==> IsNumeralFrom(t, if t != "" && (t[0] == '+' || t[0] == '-') then 1 else 0)
  {
    var t := Strip(text);
    var first := if t != "" && (t[0] == '+' || t[0] == '-') then 1 else 0;
    NumeralOfTail(t, first);
    if IsNumeralFrom(t, first) {
      TailIsNumeral(t, first);
    }
    assert t[0..] == t;
  }

  /** The value of the digits alone. */
  function DigitsOf(s: string): string {
    if s == "" then "" else DigitsOf(s[..|s| - 1]) + (if IsDigit(s[|s| - 1]) then [s[|s| - 1]] else "")
  }

  lemma {:induction false} DigitsOfAreDigits(s: string)
    ensures AllDigits(DigitsOf(s))
  {
    if s != "" {
      DigitsOfAreDigits(s[..|s| - 1]);
    }
  }

  lemma {:induction false} ValueSnoc(digits: string, c: char)
    requires AllDigits(digits) && IsDigit(c)
    ensures Value(digits + [c], |digits| + 1) == Value(digits, |digits|) * 10 + DigitValue(c)
  {
    ValueOfPrefix(digits, digits + [c], |digits|);
  }

  lemma {:induction false} UnderscoresDoNotCount(s: string, k: nat)
    requires IsNumeral(s) && k <= |s|
    ensures AllDigits(DigitsOf(s[..k])) && NumeralValue(s, k) == Value(DigitsOf(s[..k]), |DigitsOf(s[..k])|)
  {
    DigitsOfAreDigits(s[..k]);
    if k > 0 {
      var front := DigitsOf(s[..k - 1]);
      UnderscoresDoNotCount(s, k - 1);
      assert s[..k][..k - 1] == s[..k - 1] && s[..k][k - 1] == s[k - 1];
      if s[k - 1] == '_' {
        assert DigitsOf(s[..k]) == front + "" == front;
      } else {
        assert DigitsOf(s[..k]) == front + [s[k - 1]];
        ValueSnoc(front, s[k - 1]);
      }
    }
  }

  lemma {:induction false} NumeralIsDigits(s: string)
    requires IsNumeral(s)
    ensures AllDigits(DigitsOf(s)) && NumeralValue(s, |s|) == Value(DigitsOf(s), |DigitsOf(s)|)
  {
    UnderscoresDoNotCount(s, |s|);
    assert s[..|s|] == s;
  }

  lemma {:induction false} SignIsNoDigit(t: string)
    requires t != "" && !IsDigit(t[0])
    ensures DigitsOf(t) == DigitsOf(t[1..])
  {
    DigitsOfTail(t);
    assert "" + DigitsOf(t[1..]) == DigitsOf(t[1..]);
  }

  /** And what it makes of them: the decimal value of the digits, negative after a minus sign. */
  lemma {:induction false} ToIntValue(text: string)
    requires ToInt(text).Some?
    ensures var digits := DigitsOf(Strip(text));
      AllDigits(digits) && Strip(text) != "" &&
      ToInt(text).value == (if Strip(text)[0] == '-' then -1 else 1) * Value(digits, |digits|)
  {
    var t := Strip(text);
    DigitsOfAreDigits(t);
    if t[0] == '-' || t[0] == '+' {
      NumeralIsDigits(t[1..]);
      SignIsNoDigit(t);
    } else {
      NumeralIsDigits(t);
    }
  }

  lemma {:induction false} DigitsOfTail(t: string)
    requires t != ""
    ensures DigitsOf(t) == (if IsDigit(t[0]) then [t[0]] else "") + DigitsOf(t[1..])
  {
    if |t| > 1 {
      var front := t[..|t| - 1];
      DigitsOfTail(front);
      assert front[1..] == t[1..][..|t| - 2];
    }
  }
}
