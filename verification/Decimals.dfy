/** Decimal numerals: printing, reading, padding with zeros, and how long they get. */
module Decimals {

  predicate IsDigit(c: char) {
    '0' <= c <= '9'
  }

  predicate AreDigits(s: string) {
    forall i :: 0 <= i < |s| ==> IsDigit(s[i])
  }

  function Digits(n: nat): (s: string)
    ensures |s| > 0 && AreDigits(s)
  {
    if n < 10 then ['0' + n as char] else Digits(n / 10) + ['0' + (n % 10) as char]
  }

  function Value(s: string): nat
    requires AreDigits(s)
  {
    if s == [] then 0 else Value(s[..|s| - 1]) * 10 + (s[|s| - 1] - '0') as int
  }

  function Decimal(n: int): string {
    if n < 0 then "-" + Digits(-n) else Digits(n)
  }

  function Zeros(k: nat): (s: string)
    ensures |s| == k && AreDigits(s)
  {
    seq(k, i => '0')
  }

  lemma {:induction false} ValueOfDigits(n: nat)
    ensures Value(Digits(n)) == n
    ensures n > 0 ==> Digits(n)[0] != '0'
    ensures n == 0 ==> Digits(n) == "0"
  {
    if n >= 10 {
      ValueOfDigits(n / 10);
      var s := Digits(n);
      assert s[..|s| - 1] == Digits(n / 10);
    } else {
      assert Digits(n)[..0] == [];
    }
  }

  lemma {:induction false} PaddedValue(k: nat, s: string)
    requires AreDigits(s)
    ensures Value(Zeros(k) + s) == Value(s)
    decreases |s|, k
  {
    var t := Zeros(k) + s;
    if s != [] {
      assert t[..|t| - 1] == Zeros(k) + s[..|s| - 1];
      PaddedValue(k, s[..|s| - 1]);
    } else if k > 0 {
      assert t[..|t| - 1] == Zeros(k - 1) + s;
      PaddedValue(k - 1, s);
    } else {
      assert t == [];
    }
  }

  /** A digit string is its value's digits after some zeros; zero itself keeps one. */
  lemma {:induction false} DigitsOfValue(s: string) returns (k: nat)
    requires AreDigits(s) && Value(s) > 0
    ensures s == Zeros(k) + Digits(Value(s))
  {
    var last := |s| - 1;
    var front := s[..last];
    var d := (s[last] - '0') as int;
    assert s == front + [s[last]];
    if Value(front) == 0 {
      AllZeros(front);
      k := last;
      assert Digits(Value(s)) == [s[last]];
    } else {
      k := DigitsOfValue(front);
      assert Value(s) / 10 == Value(front) && Value(s) % 10 == d;
      assert Digits(Value(s)) == Digits(Value(front)) + [s[last]];
      assert Zeros(k) + Digits(Value(front)) + [s[last]] == Zeros(k) + (Digits(Value(front)) + [s[last]]);
    }
  }

  lemma {:induction false} AllZeros(s: string)
    requires AreDigits(s) && Value(s) == 0
    ensures s == Zeros(|s|)
  {
    if s != [] {
      AllZeros(s[..|s| - 1]);
      assert s == s[..|s| - 1] + [s[|s| - 1]];
    }
  }

  function Power10(k: nat): nat {
    if k == 0 then 1 else 10 * Power10(k - 1)
  }

  lemma {:induction false} DigitCount(n: nat, k: nat)
    requires k > 0
    ensures |Digits(n)| <= k <==> n < Power10(k)
  {
    if k == 1 {
      assert Power10(1) == 10;
    } else if n >= 10 {
      DigitCount(n / 10, k - 1);
    } else {
      PowerIsPositive(k - 1);
    }
  }

  lemma {:induction false} PowerIsPositive(k: nat)
    ensures Power10(k) >= 1
  {
    if k > 0 {
      PowerIsPositive(k - 1);
    }
  }

  /** Reading goes digit by digit, each worth its place in the row of digits. */
  lemma ReadingADigit(s: string, d: nat)
    requires AreDigits(s) && d < 10
    ensures AreDigits(s + ["0123456789"[d]]) && Value(s + ["0123456789"[d]]) == 10 * Value(s) + d && Value("") == 0
  {
    var longer := s + ["0123456789"[d]];
    assert longer[..|longer| - 1] == s;
    assert "0123456789"[d] as int == '0' as int + d;
  }

  lemma TenDigits(c: char)
    ensures IsDigit(c) <==> c in "0123456789"
  {
    if IsDigit(c) {
      assert "0123456789"[c as int - '0' as int] == c;
    }
  }

  /** Different numbers print differently. */
  lemma DigitsAreInjective(m: nat, n: nat)
    requires Digits(m) == Digits(n)
    ensures m == n
  {
    ValueOfDigits(m);
    ValueOfDigits(n);
  }
}
