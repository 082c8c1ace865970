/** Decimal text as the services print it, and why the keys built from it never collide. */
module Text {

  predicate IsDigit(c: char) {
    '0' <= c <= '9'
  }

  predicate AllDigits(s: string) {
    forall i | 0 <= i < |s| :: IsDigit(s[i])
  }

  function DigitOf(n: nat): (c: char)
    requires n < 10
    ensures IsDigit(c) && DigitValue(c) == n
  {
    ('0' as int + n) as char
  }

  function DigitValue(c: char): (n: nat)
    requires IsDigit(c)
    ensures n < 10
  {
    c as int - '0' as int
  }

  /** The number a digit string denotes; the empty string denotes 0. */
  function Value(s: string): nat
    requires AllDigits(s)
  {
    if s == "" then 0 else Value(s[..|s| - 1]) * 10 + DigitValue(s[|s| - 1])
  }

  /** Decimal digits of n, without leading zeros. */
  function Nat(n: nat): (s: string)
    ensures s != ""
  {
    if n < 10 then [DigitOf(n)] else Nat(n / 10) + [DigitOf(n % 10)]
  }

  /** What is printed denotes what was to be printed. */
  lemma {:induction false} NatDenotes(n: nat)
    ensures AllDigits(Nat(n)) && Value(Nat(n)) == n
  {
    if n >= 10 {
      NatDenotes(n / 10);
      assert Nat(n)[..|Nat(n)| - 1] == Nat(n / 10);
    } else {
      assert Nat(n)[..0] == "";
    }
  }

  lemma NatInjective(a: nat, b: nat)
    requires Nat(a) == Nat(b)
    ensures a == b
  {
    NatDenotes(a);
    NatDenotes(b);
  }

  function Int(n: int): (s: string)
    ensures s != ""
  {
    if n < 0 then "-" + Nat(-n) else Nat(n)
  }

  lemma IntChars(n: int)
    ensures IsDigit(Int(n)[0]) || Int(n)[0] == '-'
    ensures forall c | c in Int(n) :: IsDigit(c) || c == '-'
  {
    NatDenotes(if n < 0 then -n else n);
  }

  lemma IntInjective(a: int, b: int)
    requires Int(a) == Int(b)
    ensures a == b
  {
    NatDenotes(if a < 0 then -a else a);
    NatDenotes(if b < 0 then -b else b);
    if a < 0 {
      assert Int(a)[0] == '-';
      assert Int(b)[0] == '-' && !IsDigit('-');
      assert b < 0;
      assert Int(a)[1..] == Nat(-a) && Int(b)[1..] == Nat(-b);
    } else {
      assert IsDigit(Int(b)[0]);
      assert b >= 0;
    }
  }

  /** A text is cut in one way only at the first occurrence of a separator. */
  lemma CutUnique(a: string, b: string, c: char, x: string, y: string)
    requires c !in a && c !in b
    requires a + [c] + x == b + [c] + y
    ensures a == b && x == y
  {
    var s, t := a + [c] + x, b + [c] + y;
    assert s[|a|] == c && t[|b|] == c;
    assert forall i | 0 <= i < |b| :: t[i] == b[i] && b[i] != c;
    assert forall i | 0 <= i < |a| :: s[i] == a[i] && a[i] != c;
    assert |a| == |b|;
    assert a == s[..|a|] && b == t[..|b|];
    assert x == s[|a| + 1..] && y == t[|b| + 1..];
  }

  /** StringFixed(2) of an amount held in kopecks. */
  function Fixed2(kopecks: nat): string {
    Nat(kopecks / 10 / 10) + "." + [DigitOf(kopecks / 10 % 10), DigitOf(kopecks % 10)]
  }

  lemma DigitsDetermine(a: nat, b: nat)
    requires a / 10 / 10 == b / 10 / 10 && a / 10 % 10 == b / 10 % 10 && a % 10 == b % 10
    ensures a == b
  {
  }

  lemma Fixed2Injective(a: nat, b: nat)
    requires Fixed2(a) == Fixed2(b)
    ensures a == b
  {
    NatDenotes(a / 10 / 10);
    NatDenotes(b / 10 / 10);
    var x := [DigitOf(a / 10 % 10), DigitOf(a % 10)];
    var y := [DigitOf(b / 10 % 10), DigitOf(b % 10)];
    CutUnique(Nat(a / 10 / 10), Nat(b / 10 / 10), '.', x, y);
    NatInjective(a / 10 / 10, b / 10 / 10);
    assert DigitValue(x[0]) == DigitValue(y[0]) && DigitValue(x[1]) == DigitValue(y[1]);
    DigitsDetermine(a, b);
  }

  lemma Fixed2Charset(a: nat, c: char)
    requires !IsDigit(c) && c != '.'
    ensures c !in Fixed2(a)
  {
    NatDenotes(a / 10 / 10);
  }
}
