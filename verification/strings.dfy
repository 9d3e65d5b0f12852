/** Text primitives the cleaners rely on: Python's whitespace class and
    `str.strip()`, the separator removal of `clean_number`, and strings of
    decimal digits with the numbers they denote. */
module Strings {

  /** The characters for which Python's `str.isspace()` holds; they are the
      ones `str.strip()` removes. */
  predicate IsSpace(c: char)
  {
    || ('\U{9}' <= c <= '\U{D}')
    || ('\U{1C}' <= c <= '\U{20}')
    || c == '\U{85}' || c == '\U{A0}' || c == '\U{1680}'
    || ('\U{2000}' <= c <= '\U{200A}')
    || c == '\U{2028}' || c == '\U{2029}' || c == '\U{202F}'
    || c == '\U{205F}' || c == '\U{3000}'
  }

  predicate AllSpace(s: string)
  {
    forall i :: 0 <= i < |s| ==> IsSpace(s[i])
  }

  /** The first index at or after `i` that does not hold whitespace. */
  function SkipSpace(s: string, i: nat): (j: nat)
    requires i <= |s|
    ensures i <= j <= |s|
    ensures forall k :: i <= k < j ==> IsSpace(s[k])
    ensures j == |s| || !IsSpace(s[j])
    decreases |s| - i
  {
    if i < |s| && IsSpace(s[i]) then SkipSpace(s, i + 1) else i
  }

  /** The least `k` in `lo..j` such that `s[k..j]` is all whitespace. */
  function SkipSpaceBack(s: string, lo: nat, j: nat): (k: nat)
    requires lo <= j <= |s|
    ensures lo <= k <= j
    ensures forall m :: k <= m < j ==> IsSpace(s[m])
    ensures k == lo || !IsSpace(s[k - 1])
  {
    if lo < j && IsSpace(s[j - 1]) then SkipSpaceBack(s, lo, j - 1) else j
  }

  /** Python's `str.strip()` with no argument: the longest piece of `s` that
      neither starts nor ends with whitespace, cut where only whitespace lies
      outside it. */
  function Strip(s: string): (r: string)
    ensures r == [] <==> AllSpace(s)
    ensures r != [] ==> !IsSpace(r[0]) && !IsSpace(r[|r| - 1])
    ensures SkipSpace(s, 0) + |r| <= |s|
    ensures r == s[SkipSpace(s, 0)..SkipSpace(s, 0) + |r|]
    ensures AllSpace(s[..SkipSpace(s, 0)]) && AllSpace(s[SkipSpace(s, 0) + |r|..])
  {
    var lo := SkipSpace(s, 0);
    var hi := SkipSpaceBack(s, lo, |s|);
    s[lo..hi]
  }

  /** A string without whitespace at either end is left as it is. */
  lemma StripKeepsTrimmed(t: string)
    requires t == [] || (!IsSpace(t[0]) && !IsSpace(t[|t| - 1]))
    ensures Strip(t) == t
  {
    if t != [] {
      assert SkipSpace(t, 0) == 0;
      assert SkipSpaceBack(t, 0, |t|) == |t|;
    }
  }

  /** Stripping twice is stripping once. */
  lemma StripIdempotent(s: string)
    ensures Strip(Strip(s)) == Strip(s)
  {
    StripKeepsTrimmed(Strip(s));
  }

  /** `s.replace(c, "")`: every occurrence of `c` removed, the rest in order. */
  function RemoveChar(s: string, c: char): (r: string)
    ensures c !in r
    ensures forall x :: x in r ==> x in s
    ensures |r| <= |s|
    ensures c !in s ==> r == s
  {
    if s == [] then []
    else (if s[0] == c then [] else [s[0]]) + RemoveChar(s[1..], c)
  }

  /** Removing a character distributes over concatenation. */
  lemma {:induction false} RemoveCharAppend(a: string, b: string, c: char)
    ensures RemoveChar(a + b, c) == RemoveChar(a, c) + RemoveChar(b, c)
  {
    if a == [] {
      assert a + b == b;
    } else {
      assert (a + b)[1..] == a[1..] + b;
      RemoveCharAppend(a[1..], b, c);
    }
  }

  /** `value.replace(",", "").replace(" ", "")` (main.py:48). */
  function RemoveSeparators(s: string): (r: string)
    ensures ',' !in r && ' ' !in r
    ensures ',' !in s && ' ' !in s ==> r == s
  {
    RemoveChar(RemoveChar(s, ','), ' ')
  }

  /** Removing the separators distributes over concatenation. */
  lemma RemoveSeparatorsAppend(a: string, b: string)
    ensures RemoveSeparators(a + b) == RemoveSeparators(a) + RemoveSeparators(b)
  {
    RemoveCharAppend(a, b, ',');
    RemoveCharAppend(RemoveChar(a, ','), RemoveChar(b, ','), ' ');
  }

  /** A separator inserted anywhere is removed again. */
  lemma RemoveSeparatorsInsert(s: string, k: nat, sep: char)
    requires k <= |s|
    requires sep == ',' || sep == ' '
    ensures RemoveSeparators(s[..k] + [sep] + s[k..]) == RemoveSeparators(s)
  {
    var a, b := s[..k], s[k..];
    assert s == a + b;
    assert s[..k] + [sep] + s[k..] == a + ([sep] + b);
    assert RemoveSeparators([sep]) == [] by {
      assert RemoveChar([sep], ',') == if sep == ',' then [] else [sep];
    }
    RemoveSeparatorsAppend([sep], b);
    RemoveSeparatorsAppend(a, [sep] + b);
    RemoveSeparatorsAppend(a, b);
  }

  predicate IsDigit(c: char)
  {
    '0' <= c <= '9'
  }

  predicate AllDigits(s: string)
  {
    forall i :: 0 <= i < |s| ==> IsDigit(s[i])
  }

  function Pow10(k: nat): (p: nat)
    ensures p >= 1
  {
    if k == 0 then 1 else 10 * Pow10(k - 1)
  }

  /** The number a string of decimal digits denotes, most significant first;
      it has fewer digits than the smallest number of one more digit. */
  function DigitsValue(s: string): (n: nat)
    requires AllDigits(s)
    ensures n < Pow10(|s|)
  {
    if s == [] then 0
    else
      var d := s[|s| - 1] as int - '0' as int;
      assert 0 <= d <= 9;
      10 * DigitsValue(s[..|s| - 1]) + d
  }

  function DigitChar(d: nat): (c: char)
    requires d < 10
    ensures IsDigit(c) && c as int - '0' as int == d
  {
    ('0' as int + d) as char
  }

  /** Python's `str()` of a non-negative integer: digits that denote it,
      with no leading zero unless it is zero itself. */
  function ShowNat(n: nat): (s: string)
    ensures s != [] && AllDigits(s)
    ensures DigitsValue(s) == n
    ensures (s[0] == '0') == (n == 0)
  {
    if n < 10 then [DigitChar(n)]
    else
      var s := ShowNat(n / 10) + [DigitChar(n % 10)];
      assert s[..|s| - 1] == ShowNat(n / 10);
      s
  }

  /** Python's `str()` of an integer. */
  function ShowInt(i: int): (s: string)
    ensures s != [] && ',' !in s && ' ' !in s
  {
    if i < 0 then "-" + ShowNat(-i) else ShowNat(i)
  }

  /** The digits of `n` padded on the left with zeros to at least `width`
      characters, as the `%0Nd` format does. */
  function ZeroPad(n: nat, width: nat): (s: string)
    ensures AllDigits(s)
    ensures |s| == if width > |ShowNat(n)| then width else |ShowNat(n)|
    ensures s[|s| - |ShowNat(n)|..] == ShowNat(n)
    ensures forall i :: 0 <= i < |s| - |ShowNat(n)| ==> s[i] == '0'
  {
    var digits := ShowNat(n);
    if width > |digits| then seq(width - |digits|, _ => '0') + digits else digits
  }
}
