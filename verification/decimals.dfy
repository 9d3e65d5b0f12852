/** The decimal literals `clean_number` hands to Python's `float()`
    (main.py:49), restricted to an optional sign, digits, an optional point
    and more digits, together with the truncation toward zero that `int()`
    applies to the parsed number. */
module Decimals {
  import opened Wrappers
  import opened Strings

  datatype Sign = NoSign | Plus | Minus

  /** A literal split into its parts: `-12.50` is `Decimal(Minus, "12", true, "50")`
      and `+.5` is `Decimal(Plus, "", true, "5")`. */
  datatype Decimal = Decimal(sign: Sign, whole: string, point: bool, fraction: string)

  /** The literals `float()` accepts within this grammar: digits only, at
      least one of them, and fraction digits only after a point. */
  predicate WellFormed(d: Decimal)
  {
    && AllDigits(d.whole)
    && AllDigits(d.fraction)
    && |d.whole| + |d.fraction| > 0
    && (!d.point ==> d.fraction == [])
  }

  function SignText(sg: Sign): string
  {
    match sg
    case NoSign => ""
    case Plus => "+"
    case Minus => "-"
  }

  /** The text a literal is written as. */
  function Format(d: Decimal): string
  {
    SignText(d.sign) + d.whole + (if d.point then "." else "") + d.fraction
  }

  /** The end of the run of digits that starts at `i`. */
  function DigitRun(s: string, i: nat): (j: nat)
    requires i <= |s|
    ensures i <= j <= |s|
    ensures forall k :: i <= k < j ==> IsDigit(s[k])
    ensures j == |s| || !IsDigit(s[j])
    decreases |s| - i
  {
    if i < |s| && IsDigit(s[i]) then DigitRun(s, i + 1) else i
  }

  /** Reads a literal of the grammar; `None` is the `ValueError` that
      `float()` raises on any other text, the empty text included. */
  function ParseDecimal(s: string): (r: Option<Decimal>)
    ensures r.Some? ==> WellFormed(r.value) && Format(r.value) == s
  {
    if |s| > 0 && s[0] == '-' then ParseUnsigned(Minus, s[1..])
    else if |s| > 0 && s[0] == '+' then ParseUnsigned(Plus, s[1..])
    else ParseUnsigned(NoSign, s)
  }

  /** Reads what follows the sign: digits, then either nothing or a point
      and digits, with at least one digit in all. */
  function ParseUnsigned(sign: Sign, body: string): (r: Option<Decimal>)
    ensures r.Some? ==> WellFormed(r.value) && r.value.sign == sign
    ensures r.Some? ==> Format(r.value) == SignText(sign) + body
  {
    var w := DigitRun(body, 0);
    if w == |body| then
      if w > 0 then
        assert AllDigits(body);
        Some(Decimal(sign, body, false, []))
      else None
    else if body[w] == '.' && AllDigits(body[w + 1..]) && |body[..w]| + |body[w + 1..]| > 0 then
      assert body == body[..w] + "." + body[w + 1..];
      Some(Decimal(sign, body[..w], true, body[w + 1..]))
    else
      None
  }

  /** The digit run of a string that is digits up to `j` ends at `j`. */
  lemma {:induction false} DigitRunEndsAt(s: string, i: nat, j: nat)
    requires i <= j <= |s|
    requires forall k :: i <= k < j ==> IsDigit(s[k])
    requires j == |s| || !IsDigit(s[j])
    ensures DigitRun(s, i) == j
    decreases j - i
  {
    if i < j {
      DigitRunEndsAt(s, i + 1, j);
    }
  }

  /** Every well-formed literal reads back as itself. */
  lemma ParseFormatted(d: Decimal)
    requires WellFormed(d)
    ensures ParseDecimal(Format(d)) == Some(d)
  {
    var body := d.whole + (if d.point then "." else "") + d.fraction;
    assert Format(d) == SignText(d.sign) + body;
    assert |body| > 0 && (IsDigit(body[0]) || body[0] == '.');
    assert ParseUnsigned(d.sign, body) == Some(d) by {
      DigitRunEndsAt(body, 0, |d.whole|);
      if d.point {
        assert body[..|d.whole|] == d.whole;
        assert body[|d.whole| + 1..] == d.fraction;
      } else {
        assert body == d.whole;
      }
    }
    match d.sign
    case NoSign =>
      assert Format(d) == body;
    case Plus =>
      assert Format(d)[0] == '+' && Format(d)[1..] == body;
    case Minus =>
      assert Format(d)[0] == '-' && Format(d)[1..] == body;
  }

  /** The grammar's texts and its well-formed literals correspond one to one. */
  lemma ParseDecimalIff(s: string, d: Decimal)
    ensures ParseDecimal(s) == Some(d) <==> WellFormed(d) && Format(d) == s
  {
    if WellFormed(d) && Format(d) == s {
      ParseFormatted(d);
    }
  }

  /** The exact number a literal denotes. `float()` rounds it to the nearest
      double; the model keeps it exact. */
  function DecimalValue(d: Decimal): real
    requires WellFormed(d)
  {
    var magnitude := DigitsValue(d.whole) as real
      + DigitsValue(d.fraction) as real / Pow10(|d.fraction|) as real;
    if d.sign == Minus then -magnitude else magnitude
  }

  /** `n` is `x` truncated toward zero, as Python's `int()` truncates a float. */
  predicate TruncatesTo(x: real, n: int)
  {
    if x >= 0.0 then n as real <= x < n as real + 1.0
    else n as real - 1.0 < x <= n as real
  }

  /** There is exactly one truncation of a number. */
  lemma TruncationUnique(x: real, n: int, m: int)
    requires TruncatesTo(x, n) && TruncatesTo(x, m)
    ensures n == m
  {
  }

  function Trunc(x: real): (n: int)
    ensures TruncatesTo(x, n)
  {
    if x >= 0.0 then x.Floor else -((-x).Floor)
  }

  /** The digits before the point, with the literal's sign. */
  function WholePart(d: Decimal): int
    requires WellFormed(d)
  {
    if d.sign == Minus then 0 - DigitsValue(d.whole) else DigitsValue(d.whole)
  }

  /** A count of digits over a power of ten with more digits is a fraction
      in [0, 1). */
  lemma FractionBelowOne(a: nat, p: nat)
    requires a < p
    ensures 0.0 <= a as real / p as real < 1.0
  {
    var f := a as real / p as real;
    assert f * p as real == a as real;
  }

  /** Truncating a literal's exact value drops its fraction digits: the
      exact value of `-7.9` truncates to -7 whatever the digits after the
      point. Python's `float()` rounds first, so there a fraction within half
      a unit in the last place of the next integer reaches that integer. */
  lemma TruncValue(d: Decimal)
    requires WellFormed(d)
    ensures Trunc(DecimalValue(d)) == WholePart(d)
  {
    var n: int := DigitsValue(d.whole);
    var f := DigitsValue(d.fraction) as real / Pow10(|d.fraction|) as real;
    FractionBelowOne(DigitsValue(d.fraction), Pow10(|d.fraction|));
    assert DecimalValue(d) == if d.sign == Minus then -(n as real + f) else n as real + f;
    if d.sign == Minus {
      assert TruncatesTo(-(n as real + f), 0 - n);
      TruncationUnique(DecimalValue(d), Trunc(DecimalValue(d)), 0 - n);
    } else {
      assert TruncatesTo(n as real + f, n);
      TruncationUnique(DecimalValue(d), Trunc(DecimalValue(d)), n);
    }
  }
}
