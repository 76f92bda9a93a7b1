/** Decimal text: printing, zero padding and reading back. */
module Decimal {
  function Digit(d: nat): char
    requires d < 10
  {
    ('0' as int + d) as char
  }

  predicate IsDigit(c: char) {
    '0' <= c <= '9'
  }

  predicate AllDigits(s: string) {
    forall i | 0 <= i < |s| :: IsDigit(s[i])
  }

  predicate IsNumber(s: string) {
    s != "" && AllDigits(s)
  }

  function Print(n: nat): string {
    if n < 10 then [Digit(n)] else Print(n / 10) + [Digit(n % 10)]
  }

  function Zeros(n: nat): string {
    seq(n, i => '0')
  }

  /** At least `width` characters, filled with zeros from the left. */
  function Padded(n: nat, width: nat): string {
    var digits := Print(n);
    if |digits| >= width then digits else Zeros(width - |digits|) + digits
  }

  /** The number a string of digits stands for. */
  function Read(s: string): nat
    requires AllDigits(s)
  {
    if s == "" then 0 else 10 * Read(s[..|s| - 1]) + (s[|s| - 1] as int - '0' as int)
  }

  function Pow10(n: nat): nat {
    if n == 0 then 1 else 10 * Pow10(n - 1)
  }

  lemma {:induction false} PrintIsNumber(n: nat)
    ensures IsNumber(Print(n)) && Read(Print(n)) == n
  {
    if n < 10 {
      assert [Digit(n)][..0] == "";
    } else {
      PrintIsNumber(n / 10);
      assert Print(n)[..|Print(n)| - 1] == Print(n / 10);
    }
  }

  lemma {:induction false} ZerosReadAsNothing(n: nat, s: string)
    requires AllDigits(s)
    ensures AllDigits(Zeros(n) + s) && Read(Zeros(n) + s) == Read(s)
  {
    var padded := Zeros(n) + s;
    if s != "" {
      assert padded[..|padded| - 1] == Zeros(n) + s[..|s| - 1];
      ZerosReadAsNothing(n, s[..|s| - 1]);
    } else if n > 0 {
      assert padded[..n - 1] == Zeros(n - 1) + "";
      ZerosReadAsNothing(n - 1, "");
    }
  }

  /** Reading inverts padded printing. */
  lemma PaddedReadsBack(n: nat, width: nat)
    ensures IsNumber(Padded(n, width)) && Read(Padded(n, width)) == n
  {
    PrintIsNumber(n);
    if |Print(n)| < width {
      ZerosReadAsNothing(width - |Print(n)|, Print(n));
    }
  }

  lemma PaddedIsInjective(a: nat, b: nat, width: nat)
    requires Padded(a, width) == Padded(b, width)
    ensures a == b
  {
    PaddedReadsBack(a, width);
    PaddedReadsBack(b, width);
  }

  lemma {:induction false} PrintLength(n: nat, k: nat)
    requires k >= 1
    ensures |Print(n)| <= k <==> n < Pow10(k)
  {
    if n < 10 {
      Pow10Grows(k);
    } else if k > 1 {
      PrintLength(n / 10, k - 1);
    }
  }

  lemma {:induction false} Pow10Grows(k: nat)
    requires k >= 1
    ensures Pow10(k) >= 10
  {
    if k > 1 {
      Pow10Grows(k - 1);
    }
  }

  /** Padding to a width gives exactly that width precisely below the power of ten. */
  lemma PaddedLength(n: nat, width: nat)
    requires width >= 1
    ensures |Padded(n, width)| == width <==> n < Pow10(width)
  {
    PrintLength(n, width);
  }
}
