/** Showing an amount of minor currency units as a decimal number. */
module MinorUnits {
  import opened Decimals
  import opened Wrappers

  /** A number as the caller passes it: an integer, or anything else. */
  datatype Number = Integer(n: int) | NotAnInteger

  const MAX_EXPONENT: int := 4

  /** At most 18 digits, the first of them not zero. */
  predicate Canonical(amount: string) {
    1 <= |amount| <= 18 && IsNumeral(amount) && amount[0] != '0'
  }

  function Zeros(n: nat): (s: string)
    ensures |s| == n && forall i :: 0 <= i < n ==> s[i] == '0'
  {
    seq(n, _ => '0')
  }

  function PadStart(s: string, n: nat): string {
    if |s| < n then Zeros(n - |s|) + s else s
  }

  function FormatMinorUnits(amount: string, exponent: Number): Option<string> {
    if !Canonical(amount) then None
    else if exponent.NotAnInteger? || exponent.n < 0 || exponent.n > MAX_EXPONENT then None
    else if exponent.n == 0 then Some(amount)
    else
      var digits := PadStart(amount, exponent.n + 1);
      Some(digits[..|digits| - exponent.n] + "." + digits[|digits| - exponent.n..])
  }

  function DropZeros(s: string): string {
    if s != "" && s[0] == '0' then DropZeros(s[1..]) else s
  }

  lemma {:induction false} DropPadding(n: nat, s: string)
    requires s != "" && s[0] != '0'
    ensures DropZeros(Zeros(n) + s) == s
  {
    if n == 0 {
      assert Zeros(n) + s == s;
    } else {
      assert (Zeros(n) + s)[1..] == Zeros(n - 1) + s;
      DropPadding(n - 1, s);
    }
  }

  lemma {:induction false} ZerosDenoteZero(n: nat)
    ensures IsNumeral(Zeros(n)) && Denotes(Zeros(n)) == 0
  {
    if n == 0 {
    } else {
      ZerosDenoteZero(n - 1);
      assert Zeros(n)[..n - 1] == Zeros(n - 1);
    }
  }

  /** How a shown amount reads: a whole part and `e` digits after the point. */
  ghost predicate Reads(shown: string, e: nat, whole: string, fraction: string) {
    && IsNumeral(whole) && IsNumeral(fraction) && |fraction| == e
    && shown == if e == 0 then whole else whole + "." + fraction
  }

  /** The shown number is exactly the amount divided by 10^e, in canonical form, and the amount can
      be read back from it. */
  lemma ShownAmountIsExact(amount: string, e: nat) returns (shown: string, whole: string, fraction: string)
    requires Canonical(amount) && e <= MAX_EXPONENT
    ensures FormatMinorUnits(amount, Integer(e)) == Some(shown) && Reads(shown, e, whole, fraction)
    ensures Denotes(whole) * Pow10(e) + Denotes(fraction) == Denotes(amount)
    ensures whole != "" && (whole[0] == '0' ==> whole == "0")
    ensures DropZeros(whole + fraction) == amount
  {
    var pad, digits;
    pad, digits, whole, fraction := Cut(amount, e);
    shown := if e == 0 then whole else whole + "." + fraction;
    PaddedDigits(amount, pad, digits);
    CutDenotes(digits, whole, fraction);
  }

  lemma CutDenotes(digits: string, whole: string, fraction: string)
    requires IsNumeral(digits) && digits == whole + fraction
    ensures IsNumeral(whole) && IsNumeral(fraction)
    ensures Denotes(whole) * Pow10(|fraction|) + Denotes(fraction) == Denotes(digits)
  {
    assert whole == digits[..|whole|] && fraction == digits[|whole|..];
    DenotesConcat(whole, fraction);
  }

  lemma Cut(amount: string, e: nat) returns (pad: nat, digits: string, whole: string, fraction: string)
    requires Canonical(amount) && e <= MAX_EXPONENT
    ensures digits == Zeros(pad) + amount == whole + fraction && |fraction| == e
    ensures whole != "" && (whole[0] == '0' ==> whole == "0")
    ensures FormatMinorUnits(amount, Integer(e)) == Some(if e == 0 then whole else whole + "." + fraction)
  {
    pad := if e > 0 && |amount| < e + 1 then e + 1 - |amount| else 0;
    digits := Zeros(pad) + amount;
    whole, fraction := digits[..|digits| - e], digits[|digits| - e..];
    if pad == 0 {
      assert digits == amount && digits[..|digits|] == amount;
    }
  }

  lemma PaddedDigits(amount: string, pad: nat, digits: string)
    requires Canonical(amount) && digits == Zeros(pad) + amount
    ensures IsNumeral(digits) && Denotes(digits) == Denotes(amount) && DropZeros(digits) == amount
  {
    ZerosDenoteZero(pad);
    DenotesConcat(Zeros(pad), amount);
    DropPadding(pad, amount);
  }

  /** A decimal text with `e` digits after the point: no superfluous leading zero, a positive value,
      and at most 18 digits from the first one that is not zero. */
  ghost predicate IsDecimal(shown: string, e: nat, whole: string, fraction: string) {
    && Reads(shown, e, whole, fraction)
    && whole != "" && (whole[0] == '0' ==> whole == "0")
    && 1 <= |DropZeros(whole + fraction)| <= 18
  }

  /** The texts that can be shown are exactly the decimals with as many digits after the point as
      the exponent says, for the exponents 0 to 4; for other exponents there are none. */
  lemma ShownTextsAreTheDecimals(exponent: Number, shown: string)
    ensures (exists amount :: FormatMinorUnits(amount, exponent) == Some(shown)) <==>
      && exponent.Integer? && 0 <= exponent.n <= 4
      && exists whole, fraction :: IsDecimal(shown, exponent.n, whole, fraction)
  {
    if amount :| FormatMinorUnits(amount, exponent) == Some(shown) {
      var shown', whole, fraction := ShownAmountIsExact(amount, exponent.n);
      assert IsDecimal(shown, exponent.n, whole, fraction);
    }
    if exponent.Integer? && 0 <= exponent.n <= MAX_EXPONENT {
      if whole, fraction :| IsDecimal(shown, exponent.n, whole, fraction) {
        var amount := AmountOf(shown, exponent.n, whole, fraction);
      }
    }
  }

  /** The amount behind a decimal: its digits without the leading zeros. */
  lemma AmountOf(shown: string, e: nat, whole: string, fraction: string) returns (amount: string)
    requires e <= MAX_EXPONENT && IsDecimal(shown, e, whole, fraction)
    ensures FormatMinorUnits(amount, Integer(e)) == Some(shown)
  {
    var digits := whole + fraction;
    var d := LeadingZeros(digits);
    amount := digits[d..];
    assert digits == Zeros(d) + amount && Canonical(amount);
    if e == 0 {
      assert fraction == "" && digits == whole && whole[d] != '0';
    } else {
      assert digits[..|digits| - e] == whole && digits[|digits| - e..] == fraction;
      assert d > 0 ==> |digits| == e + 1 && PadStart(amount, e + 1) == Zeros(d) + amount;
    }
  }

  lemma {:induction false} LeadingZeros(s: string) returns (d: nat)
    requires IsNumeral(s) && DropZeros(s) != ""
    ensures d < |s| && s[..d] == Zeros(d) && DropZeros(s) == s[d..] && s[d] != '0'
    ensures d > 0 <==> s[0] == '0'
  {
    if s[0] != '0' {
      d := 0;
    } else {
      var d' := LeadingZeros(s[1..]);
      d := d' + 1;
      assert s[..d] == ['0'] + s[1..][..d'];
    }
  }

  /** For one exponent, two different amounts never look alike. */
  lemma ShownAmountsDiffer(a: string, b: string, e: nat)
    requires Canonical(a) && Canonical(b) && e <= MAX_EXPONENT
    requires FormatMinorUnits(a, Integer(e)) == FormatMinorUnits(b, Integer(e))
    ensures a == b
  {
    var shownA, wholeA, fractionA := ShownAmountIsExact(a, e);
    var shownB, wholeB, fractionB := ShownAmountIsExact(b, e);
    ReadsOneWay(shownA, e, wholeA, fractionA, wholeB, fractionB);
  }

  lemma ReadsOneWay(shown: string, e: nat, w1: string, f1: string, w2: string, f2: string)
    requires Reads(shown, e, w1, f1) && Reads(shown, e, w2, f2)
    ensures w1 == w2 && f1 == f2
  {
    if e > 0 {
      assert w1 == shown[..|shown| - e - 1] && w2 == shown[..|shown| - e - 1];
      assert f1 == shown[|shown| - e..] && f2 == shown[|shown| - e..];
    }
  }
}
