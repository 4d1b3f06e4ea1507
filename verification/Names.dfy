/** The names a generated sequence gives its CRs. */
module Names {
  const DIGITS := "0123456789"

  function Decimal(n: nat): (s: string)
    ensures s != ""
  {
    if n < 10 then [DIGITS[n]] else Decimal(n / 10) + [DIGITS[n % 10]]
  }

  /** The n-th CR's name, counting from 0. */
  function Name(sample: string, n: nat): string {
    if n == 0 then sample else sample + "-" + Decimal(n + 1)
  }

  lemma DigitsDiffer(a: nat, b: nat)
    requires a < 10 && b < 10 && DIGITS[a] == DIGITS[b]
    ensures a == b
  {
  }

  lemma {:induction false} DecimalsDiffer(a: nat, b: nat)
    requires Decimal(a) == Decimal(b)
    ensures a == b
  {
    var s := Decimal(a);
    var x, y := if a < 10 then a else a % 10, if b < 10 then b else b % 10;
    assert s[|s| - 1] == DIGITS[x] && s[|s| - 1] == DIGITS[y];
    DigitsDiffer(x, y);
    if a >= 10 && b >= 10 {
      assert Decimal(a / 10) == s[..|s| - 1] == Decimal(b / 10);
      DecimalsDiffer(a / 10, b / 10);
    }
  }

  /** No two CRs of a sequence share a name. */
  lemma NamesDiffer(sample: string, m: nat, n: nat)
    requires Name(sample, m) == Name(sample, n)
    ensures m == n
  {
    if m > 0 && n > 0 {
      var a, b := Decimal(m + 1), Decimal(n + 1);
      assert (sample + "-" + a)[|sample| + 1..] == a && (sample + "-" + b)[|sample| + 1..] == b;
      DecimalsDiffer(m + 1, n + 1);
    }
  }
}
