/**
  The percentage formatter of the cross-tab visual: a ratio n becomes the text
  of Math.round(n * 1000) / 10 followed by "%".  The ratio is always a quotient
  of two counts, so it is modelled exactly as num / den instead of as a double.
 */
module Percent {

  datatype Option<T> = None | Some(value: T)

  /** The number of tenths of a percent that Math.round gives for num / den:
      the nearest whole number to 1000 * num / den, halves rounded up. */
  function Tenths(num: nat, den: nat): (t: nat)
    requires den > 0
    ensures 2000 * num - den < 2 * den * t <= 2000 * num + den
  {
    (2000 * num + den) / (2 * den)
  }

  lemma MulAtMost(x: int, y: int, b: nat)
    requires x <= y
    ensures b * x <= b * y
  {
  }

  /** Whole-number division is determined by the bracket it lies in. */
  lemma DivByBracket(a: int, b: int, q: int)
    requires b > 0 && b * q <= a < b * q + b
    ensures a / b == q
  {
    var d := a / b;
    if d < q {
      MulAtMost(d, q - 1, b);
    } else if d > q {
      MulAtMost(q + 1, d, b);
    }
  }

  lemma TenthsOfWhole(n: nat)
    requires n > 0
    ensures Tenths(n, n) == 1000
  {
    DivByBracket(2000 * n + n, 2 * n, 1000);
  }

  lemma TenthsAtMostWhole(num: nat, den: nat)
    requires 0 < den && num <= den
    ensures Tenths(num, den) <= 1000
  {
    var t := Tenths(num, den);
    if t >= 1001 {
      MulAtMost(1001, t, 2 * den);
    }
  }

  predicate IsDigit(c: char) { '0' <= c <= '9' }

  predicate AllDigits(s: string) { forall k :: 0 <= k < |s| ==> IsDigit(s[k]) }

  function Digit(n: nat): (c: char)
    requires n < 10
    ensures IsDigit(c) && c as int - '0' as int == n
  {
    (n + '0' as int) as char
  }

  function DigitValue(c: char): nat
    requires IsDigit(c)
  {
    c as int - '0' as int
  }

  /** Decimal text of a whole number, as JavaScript prints it. */
  function NatToString(n: nat): (s: string)
    ensures |s| > 0 && AllDigits(s)
    decreases n
  {
    if n < 10 then [Digit(n)] else NatToString(n / 10) + [Digit(n % 10)]
  }

  /** Value of a string of decimal digits. */
  function ParseNat(s: string): nat
    requires AllDigits(s)
    decreases |s|
  {
    if s == [] then 0 else 10 * ParseNat(s[..|s| - 1]) + DigitValue(s[|s| - 1])
  }

  lemma {:induction false} ParseNatToString(n: nat)
    ensures ParseNat(NatToString(n)) == n
    decreases n
  {
    var s := NatToString(n);
    if n >= 10 {
      ParseNatToString(n / 10);
      assert s[..|s| - 1] == NatToString(n / 10);
    }
  }

  /** `${t / 10}%`: JavaScript prints a whole number without a decimal point
      and a number of tenths with exactly one decimal. */
  function FormatTenths(t: nat): string
  {
    NatToString(t / 10) + (if t % 10 == 0 then "" else ['.', Digit(t % 10)]) + "%"
  }

  /** Visual.round applied to num / den.  With den == 0 the division gives NaN
      (0 / 0) or Infinity, which Math.round and the template pass through. */
  function Round(num: nat, den: nat): (s: string)
    ensures |s| > 1 && s[|s| - 1] == '%'
  {
    if den == 0 then (if num == 0 then "NaN%" else "Infinity%")
    else FormatTenths(Tenths(num, den))
  }

  /** Reads a percentage text back as a number of tenths: digits, optionally a
      point and one digit, then "%". */
  function ParsePercent(s: string): Option<nat>
  {
    if |s| < 2 || s[|s| - 1] != '%' then None
    else
      var body := s[..|s| - 1];
      if |body| >= 3 && body[|body| - 2] == '.' && IsDigit(body[|body| - 1]) && AllDigits(body[..|body| - 2]) then
        Some(10 * ParseNat(body[..|body| - 2]) + DigitValue(body[|body| - 1]))
      else if AllDigits(body) then
        Some(10 * ParseNat(body))
      else
        None
  }

  lemma FormatTenthsParses(t: nat)
    ensures ParsePercent(FormatTenths(t)) == Some(t)
  {
    var q := NatToString(t / 10);
    ParseNatToString(t / 10);
    var s := FormatTenths(t);
    if t % 10 == 0 {
      assert s[..|s| - 1] == q;
      if |q| >= 3 {
        assert IsDigit(q[|q| - 2]);
      }
    } else {
      var body := q + ['.', Digit(t % 10)];
      assert s[..|s| - 1] == body;
      assert body[..|body| - 2] == q;
    }
  }

  /** The text Round produces determines the rounded value, and only a
      zero denominator produces a text that is not a number. */
  lemma RoundParses(num: nat, den: nat)
    ensures ParsePercent(Round(num, den)) == if den > 0 then Some(Tenths(num, den)) else None
  {
    if den > 0 {
      FormatTenthsParses(Tenths(num, den));
    } else if num == 0 {
      assert !IsDigit("NaN"[0]);
    } else {
      assert !IsDigit("Infinity"[0]);
    }
  }

  /** A count over itself prints as "100%", the literal the layout uses. */
  lemma RoundOfWhole(n: nat)
    requires n > 0
    ensures Round(n, n) == "100%"
  {
    TenthsOfWhole(n);
    assert NatToString(100) == NatToString(10) + ['0'];
    assert NatToString(10) == NatToString(1) + ['0'];
  }

  lemma RoundOfNothing(den: nat)
    requires den > 0
    ensures Round(0, den) == "0%"
  {
    assert Tenths(0, den) == 0;
  }

  /** Two fifths and three fifths print as "40%" and "60%": a whole number
      of percent gets no decimal point. */
  lemma RoundOfFifths()
    ensures Round(2, 5) == "40%" && Round(3, 5) == "60%"
  {
    DivByBracket(2000 * 2 + 5, 2 * 5, 400);
    DivByBracket(2000 * 3 + 5, 2 * 5, 600);
    assert NatToString(40) == NatToString(4) + [Digit(0)];
    assert NatToString(60) == NatToString(6) + [Digit(0)];
  }
}
