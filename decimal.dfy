/**
 * JavaScript turns a number used as an object key into its decimal string:
 * the auto-generated id `Object.keys(this.queue).length + 1` is stored under
 * `String(length + 1)`. Only non-negative integers occur here.
 */
module NumberKeys {

  const DIGITS := "0123456789"

  /** The shortest decimal rendering of `n`, without leading zeros. */
  function Decimal(n: nat): (s: string)
    ensures |s| >= 1
    ensures forall k :: 0 <= k < |s| ==> s[k] in DIGITS
    ensures |s| > 1 ==> s[0] != '0'
  {
    if n < 10 then [DIGITS[n]] else Decimal(n / 10) + [DIGITS[n % 10]]
  }

  function DigitValue(c: char): nat {
    if '0' <= c <= '9' then c as nat - '0' as nat else 0
  }

  /** Reads a string of decimal digits back as a number. */
  function ParseDecimal(s: string): nat {
    if s == [] then 0 else ParseDecimal(s[..|s| - 1]) * 10 + DigitValue(s[|s| - 1])
  }

  /** Parsing the rendering gives back the number. */
  lemma {:induction false} ParseDecimalOfDecimal(n: nat)
    ensures ParseDecimal(Decimal(n)) == n
  {
    var s := Decimal(n);
    if n < 10 {
      assert s[..|s| - 1] == [];
    } else {
      ParseDecimalOfDecimal(n / 10);
      assert s[..|s| - 1] == Decimal(n / 10);
      assert DigitValue(s[|s| - 1]) == n % 10;
    }
  }

  /** Different numbers give different keys. */
  lemma DecimalInjective(a: nat, b: nat)
    ensures Decimal(a) == Decimal(b) <==> a == b
  {
    ParseDecimalOfDecimal(a);
    ParseDecimalOfDecimal(b);
  }
}
