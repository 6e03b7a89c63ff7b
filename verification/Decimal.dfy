/** Decimal text: Python's `str(n)` for a natural number and `int(b)` for a byte string. */
module Decimal {
  import opened Wrappers

  predicate IsDigit(c: char) {
    '0' <= c <= '9'
  }

  function DigitChar(d: nat): char
    requires d < 10
  {
    ['0', '1', '2', '3', '4', '5', '6', '7', '8', '9'][d]
  }

  function DigitValue(c: char): nat
    requires IsDigit(c)
  {
    (c as int) - ('0' as int)
  }

  /** `str(n)`. */
  function Str(n: nat): (s: string)
    ensures |s| >= 1
    ensures forall k :: 0 <= k < |s| ==> IsDigit(s[k])
  {
    if n < 10 then [DigitChar(n)] else Str(n / 10) + [DigitChar(n % 10)]
  }

  /** The number written by digits, where single underscores between digits are skipped. */
  function DigitsValue(s: string): nat
    requires forall k :: 0 <= k < |s| ==> IsDigit(s[k]) || s[k] == '_'
  {
    if s == [] then 0
    else
      var last := s[|s| - 1];
      var front := DigitsValue(s[..|s| - 1]);
      if last == '_' then front else 10 * front + DigitValue(last)
  }

  predicate IsSpace(c: char) {
    c in " \t\n\r\U{0B}\U{0C}"
  }

  function StripLeft(s: string): string {
    if s != [] && IsSpace(s[0]) then StripLeft(s[1..]) else s
  }

  function StripRight(s: string): string {
    if s != [] && IsSpace(s[|s| - 1]) then StripRight(s[..|s| - 1]) else s
  }

  /** Digits with single underscores strictly between them. */
  predicate IsNumeral(s: string) {
    && |s| >= 1
    && IsDigit(s[0]) && IsDigit(s[|s| - 1])
    && (forall k :: 0 <= k < |s| ==> IsDigit(s[k]) || s[k] == '_')
    && (forall k :: 0 <= k < |s| - 1 ==> IsDigit(s[k]) || IsDigit(s[k + 1]))
  }

  /** `int(s)`; None is ValueError. */
  function Int(s: string): Option<int> {
    var t := StripRight(StripLeft(s));
    if t != [] && t[0] == '-' && IsNumeral(t[1..]) then
      var v: int := DigitsValue(t[1..]); Some(-v)
    else if t != [] && t[0] == '+' && IsNumeral(t[1..]) then Some(DigitsValue(t[1..]))
    else if IsNumeral(t) then Some(DigitsValue(t))
    else None
  }

  lemma {:induction false} DigitsValueOfStr(n: nat)
    ensures DigitsValue(Str(n)) == n
  {
    if n >= 10 {
      DigitsValueOfStr(n / 10);
      var s := Str(n);
      assert s[..|s| - 1] == Str(n / 10);
    } else {
      assert Str(n)[..0] == [];
    }
  }

  /** Reading back a written number gives the number. */
  lemma IntOfStr(n: nat)
    ensures Int(Str(n)) == Some(n)
  {
    var s := Str(n);
    assert IsDigit(s[0]) && IsDigit(s[|s| - 1]);
    assert StripLeft(s) == s && StripRight(s) == s;
    DigitsValueOfStr(n);
  }

  /** A sign in front counts, and spaces around do not. */
  lemma IntOfSigned(n: nat)
    ensures Int("+" + Str(n)) == Some(n) && Int("-" + Str(n)).Some? && Int("-" + Str(n)).value + n == 0
  {
    DigitsValueOfStr(n);
    Signed('+', Str(n));
    Signed('-', Str(n));
    hide Str, DigitsValue, StripLeft, StripRight, IsNumeral;
  }

  lemma {:induction false} Signed(c: char, s: string)
    requires c in {'+', '-'} && s != "" && forall k :: 0 <= k < |s| ==> IsDigit(s[k])
    ensures StripRight(StripLeft([c] + s)) == [c] + s && ([c] + s)[0] == c && ([c] + s)[1..] == s
    ensures IsNumeral(s)
  {
    var t := [c] + s;
    assert IsDigit(s[0]) && IsDigit(s[|s| - 1]) && t[|s|] == s[|s| - 1];
    assert !IsSpace(t[0]) && !IsSpace(t[|t| - 1]);
  }

  lemma {:induction false} StripLeftPadding(a: string, s: string)
    requires forall k :: 0 <= k < |a| ==> IsSpace(a[k])
    ensures StripLeft(a + s) == StripLeft(s)
  {
    if a == "" {
      assert a + s == s;
    } else {
      assert (a + s)[1..] == a[1..] + s;
      StripLeftPadding(a[1..], s);
    }
  }

  lemma {:induction false} StripRightPadding(s: string, b: string)
    requires forall k :: 0 <= k < |b| ==> IsSpace(b[k])
    ensures StripRight(s + b) == StripRight(s)
    decreases |b|
  {
    if b == "" {
      assert s + b == s;
    } else {
      assert (s + b)[..|s + b| - 1] == s + b[..|b| - 1];
      StripRightPadding(s, b[..|b| - 1]);
    }
  }

  lemma IntOfPadded(a: string, s: string, b: string)
    requires s != "" && !IsSpace(s[0])
    requires forall k :: 0 <= k < |a| ==> IsSpace(a[k])
    requires forall k :: 0 <= k < |b| ==> IsSpace(b[k])
    ensures Int(a + s + b) == Int(s)
  {
    assert a + s + b == a + (s + b);
    StripLeftPadding(a, s + b);
    assert StripLeft(s + b) == s + b && StripLeft(s) == s;
    StripRightPadding(s, b);
  }

  lemma StrInjective(m: nat, n: nat)
    requires Str(m) == Str(n)
    ensures m == n
  {
    DigitsValueOfStr(m);
    DigitsValueOfStr(n);
  }

  lemma {:induction false} StrLength(n: nat, digits: nat, bound: nat)
    requires bound == Pow10(digits) && n < bound && digits >= 1
    ensures |Str(n)| <= digits
  {
    if n >= 10 {
      StrLength(n / 10, digits - 1, Pow10(digits - 1));
    }
  }

  function Pow10(k: nat): nat {
    if k == 0 then 1 else 10 * Pow10(k - 1)
  }
}
