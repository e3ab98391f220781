/** Decimal numerals and the numbers they denote. */
module Decimals {
  predicate IsDigit(c: char) {
    '0' <= c <= '9'
  }

  predicate IsNumeral(s: string) {
    forall i :: 0 <= i < |s| ==> IsDigit(s[i])
  }

  function Denotes(s: string): nat
    requires IsNumeral(s)
  {
    if s == "" then 0 else 10 * Denotes(s[..|s| - 1]) + (s[|s| - 1] as nat - '0' as nat)
  }

  function Pow10(k: nat): (p: nat)
    ensures p > 0
  {
    if k == 0 then 1 else 10 * Pow10(k - 1)
  }

  lemma DenotesSnoc(s: string, c: char)
    requires IsNumeral(s) && IsDigit(c)
    ensures IsNumeral(s + [c]) && Denotes(s + [c]) == 10 * Denotes(s) + (c as nat - '0' as nat)
  {
    assert (s + [c])[..|s|] == s;
  }

  lemma ShiftByTen(a: nat, p: nat, b: nat, c: nat)
    ensures 10 * (a * p + b) + c == a * (10 * p) + (10 * b + c)
  {
  }

  lemma {:induction false} DenotesConcat(s: string, t: string)
    requires IsNumeral(s) && IsNumeral(t)
    ensures IsNumeral(s + t) && Denotes(s + t) == Denotes(s) * Pow10(|t|) + Denotes(t)
  {
    if t == "" {
      assert s + t == s;
    } else {
      var front, c := t[..|t| - 1], t[|t| - 1];
      DenotesConcat(s, front);
      DenotesSnoc(s + front, c);
      DenotesSnoc(front, c);
      assert t == front + [c] && s + t == (s + front) + [c];
      ShiftByTen(Denotes(s), Pow10(|front|), Denotes(front), c as nat - '0' as nat);
    }
  }

  function Numeral(n: nat): (s: string)
    ensures IsNumeral(s) && s != ""
  {
    var digit := [(n % 10 + '0' as nat) as char];
    if n < 10 then digit else Numeral(n / 10) + digit
  }

  lemma {:induction false} NumeralDenotes(n: nat)
    ensures Denotes(Numeral(n)) == n
  {
    if n >= 10 {
      NumeralDenotes(n / 10);
      assert Numeral(n)[..|Numeral(n)| - 1] == Numeral(n / 10);
    } else {
      assert Numeral(n)[..0] == "";
    }
  }

  /** The text of a signed integer. */
  function Signed(n: int): string {
    if n < 0 then "-" + Numeral(-n) else Numeral(n)
  }

  lemma SignedIsInjective(m: int, n: int)
    requires Signed(m) == Signed(n)
    ensures m == n
  {
    assert Numeral(if m < 0 then -m else m) == if m < 0 then Signed(m)[1..] else Signed(m);
    assert Numeral(if n < 0 then -n else n) == if n < 0 then Signed(n)[1..] else Signed(n);
    assert (m < 0) == (Signed(m)[0] == '-') && (n < 0) == (Signed(n)[0] == '-');
    NumeralDenotes(if m < 0 then -m else m);
    NumeralDenotes(if n < 0 then -n else n);
  }

  lemma SignedHasNoColon(n: int)
    ensures ':' !in Signed(n)
  {
    var s := Numeral(if n < 0 then -n else n);
    assert forall i :: 0 <= i < |s| ==> s[i] != ':';
  }
}
