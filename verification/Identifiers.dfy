/** Zero-padded identifiers, and why two different numbers never share one. */
module Identifiers {
  function Digit(d: nat): char
    requires d < 10
  {
    "0123456789"[d]
  }

  function DigitValue(c: char): nat {
    if '0' <= c <= '9' then (c - '0') as nat else 0
  }

  function Decimal(n: nat): (s: string)
    ensures s != []
  {
    if n < 10 then [Digit(n)] else Decimal(n / 10) + [Digit(n % 10)]
  }

  function Zeros(n: nat): (s: string)
    ensures |s| == n
  {
    seq(n, _ => '0')
  }

  /** Python's `{n:0wd}`: at least w characters, more when the number needs them. */
  function Pad(n: nat, width: nat): string {
    var digits := Decimal(n);
    if |digits| < width then Zeros(width - |digits|) + digits else digits
  }

  function Value(s: string): nat {
    if s == [] then 0 else 10 * Value(s[..|s| - 1]) + DigitValue(s[|s| - 1])
  }

  lemma {:induction false} ValueOfDecimal(n: nat)
    ensures Value(Decimal(n)) == n
  {
    if n < 10 {
      assert Decimal(n)[..0] == [];
    } else {
      ValueOfDecimal(n / 10);
      assert Decimal(n)[..|Decimal(n)| - 1] == Decimal(n / 10);
    }
  }

  lemma {:induction false} LeadingZeros(n: nat, s: string)
    ensures Value(Zeros(n) + s) == Value(s)
  {
    if s != [] {
      assert (Zeros(n) + s)[..n + |s| - 1] == Zeros(n) + s[..|s| - 1];
      LeadingZeros(n, s[..|s| - 1]);
    } else if n > 0 {
      assert (Zeros(n) + s)[..n - 1] == Zeros(n - 1) + s;
      LeadingZeros(n - 1, s);
    }
  }

  /** Reading a padded number back gives the number. */
  lemma ValueOfPad(n: nat, width: nat)
    ensures Value(Pad(n, width)) == n
  {
    ValueOfDecimal(n);
    if |Decimal(n)| < width {
      LeadingZeros(width - |Decimal(n)|, Decimal(n));
    }
  }

  function PowerOfTen(k: nat): (p: nat)
    ensures p > 0
  {
    if k == 0 then 1 else 10 * PowerOfTen(k - 1)
  }

  lemma {:induction false} DecimalIsShortest(n: nat)
    ensures n < PowerOfTen(|Decimal(n)|)
    ensures |Decimal(n)| > 1 ==> PowerOfTen(|Decimal(n)| - 1) <= n
    ensures forall c <- Decimal(n) :: '0' <= c <= '9'
  {
    if n < 10 {
      assert PowerOfTen(1) == 10 * PowerOfTen(0);
    } else {
      DecimalIsShortest(n / 10);
    }
  }

  lemma {:induction false} PowersGrow(a: nat, b: nat)
    requires a <= b
    ensures PowerOfTen(a) <= PowerOfTen(b)
  {
    if a < b {
      PowersGrow(a, b - 1);
    }
  }

  /** Padding uses digits only and exactly the width, unless the number itself needs more. */
  lemma PadHasWidth(n: nat, width: nat)
    requires width > 0
    ensures forall c <- Pad(n, width) :: '0' <= c <= '9'
    ensures |Pad(n, width)| >= width
    ensures |Pad(n, width)| == width <==> n < PowerOfTen(width)
    ensures |Pad(n, width)| > width ==> PowerOfTen(|Pad(n, width)| - 1) <= n
  {
    DecimalIsShortest(n);
    var digits := |Decimal(n)|;
    if digits <= width {
      PowersGrow(digits, width);
    } else {
      PowersGrow(width, digits - 1);
    }
  }

  /** An identifier is prefix, padded number and a suffix whose length does not vary. */
  function Identifier(prefix: string, n: nat, width: nat, suffix: string): string {
    prefix + Pad(n, width) + suffix
  }

  lemma IdentifierIsInjective(prefix: string, width: nat, a: nat, s: string, b: nat, t: string)
    requires |s| == |t| && Identifier(prefix, a, width, s) == Identifier(prefix, b, width, t)
    ensures a == b && s == t
  {
    var x, y := Identifier(prefix, a, width, s), Identifier(prefix, b, width, t);
    var n := |Pad(a, width)|;
    assert |x| == |prefix| + n + |s| && |y| == |prefix| + |Pad(b, width)| + |t|;
    assert x[|prefix|..|prefix| + n] == Pad(a, width) && y[|prefix|..|prefix| + n] == Pad(b, width);
    assert x[|prefix| + n..] == s && y[|prefix| + n..] == t;
    ValueOfPad(a, width);
    ValueOfPad(b, width);
  }
}
