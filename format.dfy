/**
 * The text the schedule writes: the `%Y-%m-%d` rendering of a date
 * (`strftime`) and the decimal numbers in the hour-column names.
 */
module Format {
  import opened Wrappers
  import opened Calendar

  function DigitChar(n: nat): (c: char)
    requires n < 10
    ensures '0' <= c <= '9'
  {
    (48 + n) as char
  }

  predicate IsDigit(c: char) {
    '0' <= c <= '9'
  }

  function DigitValue(c: char): (n: nat)
    requires IsDigit(c)
    ensures n < 10 && DigitChar(n) == c
  {
    (c as int) - 48
  }

  predicate AllDigits(s: string) {
    forall i :: 0 <= i < |s| ==> IsDigit(s[i])
  }

  /** The value of a string of decimal digits (most significant first). */
  function ParseDigits(s: string): nat
    requires AllDigits(s)
  {
    if s == [] then 0 else 10 * ParseDigits(s[..|s| - 1]) + DigitValue(s[|s| - 1])
  }

  function Pow10(w: nat): (p: nat)
    ensures p >= 1
  {
    if w == 0 then 1 else 10 * Pow10(w - 1)
  }

  /** The `w` lowest decimal digits of `n`, zero-filled on the left (`%0wd`). */
  function FixedDigits(n: nat, w: nat): (s: string)
    ensures |s| == w && AllDigits(s)
  {
    if w == 0 then [] else FixedDigits(n / 10, w - 1) + [DigitChar(n % 10)]
  }

  /** `str(n)`: the decimal digits of `n`, with no leading zero. */
  function Decimal(n: nat): (s: string)
    ensures |s| >= 1 && AllDigits(s)
  {
    if n < 10 then [DigitChar(n)] else Decimal(n / 10) + [DigitChar(n % 10)]
  }

  lemma {:induction false} ParseFixedDigits(n: nat, w: nat)
    ensures ParseDigits(FixedDigits(n, w)) == n % Pow10(w)
  {
    if w > 0 {
      var s := FixedDigits(n, w);
      assert s[..|s| - 1] == FixedDigits(n / 10, w - 1);
      ParseFixedDigits(n / 10, w - 1);
      ModPow10Step(n, w);
    }
  }

  lemma ModPow10Step(n: nat, w: nat)
    requires w > 0
    ensures n % Pow10(w) == 10 * ((n / 10) % Pow10(w - 1)) + n % 10
  {
    var p := Pow10(w - 1);
    var q := n / 10;
    var a := q / p;
    var b := q % p;
    assert q == a * p + b;
    assert n == 10 * q + n % 10;
    assert n == a * (10 * p) + (10 * b + n % 10);
    assert 0 <= 10 * b + n % 10 < 10 * p;
    DivModUnique(n, 10 * p, a, 10 * b + n % 10);
  }

  lemma {:induction false} ParseDecimal(n: nat)
    ensures ParseDigits(Decimal(n)) == n
  {
    if n >= 10 {
      var s := Decimal(n);
      assert s[..|s| - 1] == Decimal(n / 10);
      ParseDecimal(n / 10);
    }
  }

  /** `str` is one-to-one on naturals. */
  lemma DecimalInjective(m: nat, n: nat)
    requires Decimal(m) == Decimal(n)
    ensures m == n
  {
    ParseDecimal(m);
    ParseDecimal(n);
  }

  // ---------------------------------------------------------------------
  // Dates

  /** `date.strftime('%Y-%m-%d')`, with the year written as four digits. */
  function FormatDate(d: Date): (s: string)
    requires InRange(d)
    ensures |s| == 10 && s[4] == '-' && s[7] == '-'
  {
    FixedDigits(d.year, 4) + "-" + FixedDigits(d.month, 2) + "-" + FixedDigits(d.day, 2)
  }

  /** Reads a `YYYY-MM-DD` string back; the inverse of `FormatDate`. */
  function ParseDate(s: string): Option<Date> {
    if |s| == 10 && s[4] == '-' && s[7] == '-'
       && AllDigits(s[..4]) && AllDigits(s[5..7]) && AllDigits(s[8..])
    then Some(Date(ParseDigits(s[..4]), ParseDigits(s[5..7]), ParseDigits(s[8..])))
    else None
  }

  lemma FormatDateRoundTrip(d: Date)
    requires InRange(d)
    ensures ParseDate(FormatDate(d)) == Some(d)
  {
    var y, m, dd := FixedDigits(d.year, 4), FixedDigits(d.month, 2), FixedDigits(d.day, 2);
    ParseDatePieces(y, m, dd);
    FixedDigitsRoundTrip(d.year, 4, 10000);
    FixedDigitsRoundTrip(d.month, 2, 100);
    FixedDigitsRoundTrip(d.day, 2, 100);
  }

  /** A number below `10^w` reads back unchanged from its `w`-digit field. */
  lemma FixedDigitsRoundTrip(n: nat, w: nat, bound: nat)
    requires bound == Pow10(w) && n < bound
    ensures ParseDigits(FixedDigits(n, w)) == n
  {
    ParseFixedDigits(n, w);
    DivModUnique(n, bound, 0, n);
  }

  /** A string of three digit fields joined by `-` reads back field by field. */
  lemma ParseDatePieces(y: string, m: string, d: string)
    requires |y| == 4 && |m| == 2 && |d| == 2
    requires AllDigits(y) && AllDigits(m) && AllDigits(d)
    ensures ParseDate(y + "-" + m + "-" + d) == Some(Date(ParseDigits(y), ParseDigits(m), ParseDigits(d)))
  {
    var s := y + "-" + m + "-" + d;
    assert s[..4] == y && s[5..7] == m && s[8..] == d;
  }

  /** Distinct dates are written as distinct strings. */
  lemma FormatDateInjective(a: Date, b: Date)
    requires InRange(a) && InRange(b) && FormatDate(a) == FormatDate(b)
    ensures a == b
  {
    FormatDateRoundTrip(a);
    FormatDateRoundTrip(b);
  }
}
