/** Decimal text: the digits a number is printed with, and the number a digit
    string denotes.  Shared by every component that formats or parses a count. */
module Decimal {

  predicate IsDigit(c: char) {
    '0' <= c <= '9'
  }

  predicate AllDigits(s: string) {
    forall i :: 0 <= i < |s| ==> IsDigit(s[i])
  }

  function Digit(c: char): (d: nat)
    requires IsDigit(c)
    ensures d < 10
  {
    c as int - '0' as int
  }

  /** The ordinary value of a digit string, most significant digit first. */
  function Value(s: string): nat
    requires AllDigits(s)
  {
    if s == [] then 0 else 10 * Value(s[..|s| - 1]) + Digit(s[|s| - 1])
  }

  function Pow10(k: nat): (p: nat)
    ensures p > 0
  {
    if k == 0 then 1 else 10 * Pow10(k - 1)
  }

  /** Shortest decimal text of `n`. */
  function Print(n: nat): (s: string)
    ensures s != [] && AllDigits(s) && Value(s) == n
  {
    var last := [('0' as int + n % 10) as char];
    if n < 10 then last else Print(n / 10) + last
  }

  /** Two-digit form, as `%02d` prints every number below 100. */
  function Pad2(n: nat): (s: string)
    requires n < 100
    ensures |s| == 2 && AllDigits(s) && Value(s) == n
  {
    var s := [('0' as int + n / 10) as char, ('0' as int + n % 10) as char];
    assert s[..1][..0] == [];
    assert Value(s[..1]) == n / 10;
    s
  }

  /** A number split in two digit groups is the high group shifted plus the low group. */
  lemma {:induction false} ValueOfConcat(a: string, b: string)
    requires AllDigits(a) && AllDigits(b)
    ensures AllDigits(a + b)
    ensures Value(a + b) == Value(a) * Pow10(|b|) + Value(b)
  {
    if b == [] {
      assert a + b == a;
    } else {
      var c := b[..|b| - 1];
      assert (a + b)[..|a + b| - 1] == a + c;
      ValueOfConcat(a, c);
      assert Value(a + b) == 10 * Value(a + c) + Digit(b[|b| - 1]);
      assert Value(b) == 10 * Value(c) + Digit(b[|b| - 1]);
      TenTimes(Value(a), Pow10(|c|));
    }
  }

  lemma TenTimes(a: nat, p: nat)
    ensures a * (10 * p) == 10 * (a * p)
  {
  }

  /** Digits followed by a non-digit can be read back in only one way: the
      digit run and the remainder are both determined by the whole text. */
  lemma {:induction false} DigitRunUnique(s: string, t: string, restS: string, restT: string)
    requires AllDigits(s) && AllDigits(t)
    requires restS != [] ==> !IsDigit(restS[0])
    requires restT != [] ==> !IsDigit(restT[0])
    requires s + restS == t + restT
    ensures s == t && restS == restT
  {
    var whole := s + restS;
    assert forall i :: 0 <= i < |s| ==> whole[i] == s[i];
    assert forall i :: 0 <= i < |t| ==> whole[i] == t[i];
    assert |s| < |whole| ==> whole[|s|] == restS[0];
    assert |t| < |whole| ==> whole[|t|] == restT[0];
    assert |s| == |t|;
    assert (s + restS)[..|s|] == s && (t + restT)[..|t|] == t;
    assert (s + restS)[|s|..] == restS && (t + restT)[|t|..] == restT;
  }

  /** Likewise from the right: a text ends in one digit run only. */
  lemma {:induction false} DigitTailUnique(headS: string, headT: string, s: string, t: string)
    requires AllDigits(s) && AllDigits(t)
    requires headS != [] && !IsDigit(headS[|headS| - 1])
    requires headT != [] && !IsDigit(headT[|headT| - 1])
    requires headS + s == headT + t
    ensures headS == headT && s == t
  {
    var whole := headS + s;
    assert forall i :: |headS| <= i < |whole| ==> whole[i] == s[i - |headS|];
    assert forall i :: |headT| <= i < |whole| ==> whole[i] == t[i - |headT|];
    assert whole[|headS| - 1] == headS[|headS| - 1] && whole[|headT| - 1] == headT[|headT| - 1];
    assert |headS| == |headT|;
    assert whole[..|headS|] == headS && whole[|headS|..] == s;
    assert whole[..|headT|] == headT && whole[|headT|..] == t;
  }

  lemma PrintInjective(m: nat, n: nat)
    requires Print(m) == Print(n)
    ensures m == n
  {
  }
}
