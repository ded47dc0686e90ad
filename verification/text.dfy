/** String helpers: ASCII case folding, suffix tests, `lastIndexOf`, and the
    decimal renderings the client prints. */
module Text {
  import opened Numbers

  /** ASCII case folding, the model of `toLowerCase` (which the browser
      performs over all of Unicode). */
  function LowerChar(c: char): char {
    if 'A' <= c <= 'Z' then (c as int + 32) as char else c
  }

  function ToLower(s: string): (r: string)
    ensures |r| == |s|
    ensures forall i :: 0 <= i < |s| ==> r[i] == LowerChar(s[i])
  {
    if s == [] then [] else [LowerChar(s[0])] + ToLower(s[1..])
  }

  predicate EndsWith(s: string, suffix: string) {
    |suffix| <= |s| && s[|s| - |suffix|..] == suffix
  }

  /** `s.lastIndexOf(c)`: the index of the last occurrence of c, or -1. */
  function LastIndexOf(s: string, c: char): (r: int)
    ensures -1 <= r < |s|
    ensures r == -1 ==> forall j :: 0 <= j < |s| ==> s[j] != c
    ensures 0 <= r ==> s[r] == c && forall j :: r < j < |s| ==> s[j] != c
  {
    if |s| == 0 then -1
    else if s[|s| - 1] == c then |s| - 1
    else LastIndexOf(s[..|s| - 1], c)
  }

  predicate IsDigit(c: char) {
    '0' <= c <= '9'
  }

  predicate AllDigits(s: string) {
    forall i :: 0 <= i < |s| ==> IsDigit(s[i])
  }

  function DigitChar(d: nat): (c: char)
    requires d < 10
    ensures IsDigit(c) && c as int - '0' as int == d
  {
    ('0' as int + d) as char
  }

  function DigitValue(c: char): (d: nat)
    requires IsDigit(c)
    ensures d < 10 && DigitChar(d) == c
  {
    c as int - '0' as int
  }

  /** The decimal numeral of n, as JavaScript prints a non-negative integer. */
  function Decimal(n: nat): (r: string)
    ensures 1 <= |r| && AllDigits(r)
    ensures n > 0 ==> r[0] != '0'
    decreases n
  {
    if n < 10 then [DigitChar(n)] else Decimal(n / 10) + [DigitChar(n % 10)]
  }

  /** The value of a numeral: the reading side of Decimal. */
  function ParseDecimal(s: string): nat
    requires AllDigits(s)
  {
    if s == [] then 0 else 10 * ParseDecimal(s[..|s| - 1]) + DigitValue(s[|s| - 1])
  }

  lemma {:induction false} DecimalRoundTrip(n: nat)
    ensures ParseDecimal(Decimal(n)) == n
  {
    var s := Decimal(n);
    if n < 10 {
      assert s[..|s| - 1] == [];
    } else {
      assert s[..|s| - 1] == Decimal(n / 10);
      DecimalRoundTrip(n / 10);
    }
  }

  /** Distinct numbers have distinct numerals. */
  lemma DecimalInjective()
    ensures forall m: nat, n: nat :: Decimal(m) == Decimal(n) ==> m == n
  {
    forall m: nat, n: nat | Decimal(m) == Decimal(n)
      ensures m == n
    {
      DecimalRoundTrip(m);
      DecimalRoundTrip(n);
    }
  }

  /** Exactly two digits, with a leading zero below ten. */
  function TwoDigits(k: nat): (r: string)
    requires k < 100
    ensures |r| == 2 && AllDigits(r) && ParseDecimal(r) == k
  {
    var r := [DigitChar(k / 10), DigitChar(k % 10)];
    assert r[..1] == [DigitChar(k / 10)];
    assert r[..1][..0] == [];
    assert ParseDecimal(r[..1]) == k / 10;
    r
  }

  /** `(num / den).toFixed(2)` for a non-negative rational below 10^21: the
      whole part, a point, and exactly two decimals of the nearest hundredth. */
  function FixedTwo(num: nat, den: nat): (r: string)
    requires den > 0
    ensures |r| >= 4 && r[|r| - 3] == '.'
    ensures AllDigits(r[..|r| - 3]) && AllDigits(r[|r| - 2..])
    ensures 100 * ParseDecimal(r[..|r| - 3]) + ParseDecimal(r[|r| - 2..]) == RoundHalfUp(100 * num, den)
    ensures |r| > 4 ==> r[0] != '0'
  {
    var n := RoundHalfUp(100 * num, den);
    var whole := Decimal(n / 100);
    var r := whole + "." + TwoDigits(n % 100);
    assert r[..|r| - 3] == whole;
    assert r[|r| - 2..] == TwoDigits(n % 100);
    DecimalRoundTrip(n / 100);
    r
  }

  /** The shortest numeral for n / 100, which is how `parseFloat(x.toFixed(2))`
      prints once it is turned back into a string: the whole part, then, only
      when there is a fraction, a point and one or two digits with no
      trailing zero. */
  function ShortHundredths(n: nat): (r: string)
    ensures n % 100 == 0 ==> r == Decimal(n / 100)
    ensures n % 100 != 0 ==>
      var w := Decimal(n / 100);
      && |r| > |w| + 1 && r[..|w| + 1] == w + "."
      && var f := r[|w| + 1..];
      && 1 <= |f| <= 2 && AllDigits(f) && f[|f| - 1] != '0'
      && ParseDecimal(f) * (if |f| == 1 then 10 else 1) == n % 100
  {
    var whole := Decimal(n / 100);
    var frac := n % 100;
    if frac == 0 then whole
    else if frac % 10 == 0 then
      var f := [DigitChar(frac / 10)];
      assert f[..0] == [];
      assert ParseDecimal(f) == frac / 10;
      var r := whole + "." + f;
      assert r[|whole| + 1..] == f;
      assert r[..|whole| + 1] == whole + ".";
      r
    else
      var f := TwoDigits(frac);
      var r := whole + "." + f;
      assert r[|whole| + 1..] == f;
      assert r[..|whole| + 1] == whole + ".";
      r
  }
}
