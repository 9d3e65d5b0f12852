/** Raw cells and the two cleaners of `SongDataImporter`: `clean_number`
    (main.py:37-56) and `clean_value` (main.py:58-73). The run-time type
    dispatch of the source becomes a match over a closed set of cell shapes. */
module Cells {
  import opened Wrappers
  import opened Strings
  import opened Decimals

  /** A cell as the CSV reader hands it over. NaN, `None` and pandas' NaT all
      arrive as `Missing`; `Date` is what the reader makes of `album_date`
      (main.py:125); `Float` holds a double's value as an exact real. */
  datatype Cell =
    | Missing
    | Text(text: string)
    | Int(i: int)
    | Float(x: real)
    | Date(year: nat, month: nat, day: nat)

  /** A cleaned, JSON-safe value; a cleaner's `None` is `Option.None`. */
  datatype Value = VText(text: string) | VInt(i: int) | VFloat(x: real)

  /** The one field `clean_value` sends through `clean_number` (main.py:66). */
  const YoutubeViews := "youtube_views"

  /** The guard `pd.isna(value) or value == "" or value is None` that opens
      both cleaners (main.py:41, main.py:62). */
  predicate IsBlank(c: Cell)
  {
    c.Missing? || c == Text("")
  }

  /** Python's `str()` of a date, the `%04d-%02d-%02d` form. */
  function IsoDate(year: nat, month: nat, day: nat): (s: string)
    ensures |s| >= 10 && IsDigit(s[0]) && IsDigit(s[|s| - 1])
  {
    ZeroPad(year, 4) + "-" + ZeroPad(month, 2) + "-" + ZeroPad(day, 2)
  }

  /** `clean_number`: blank cells and cells that are neither text nor a
      number give `None`; text loses every comma and space and is read as a
      decimal literal, a literal it cannot read giving `None` rather than an
      exception; numbers are truncated toward zero. */
  function CleanNumber(c: Cell): (r: Option<int>)
    ensures IsBlank(c) || c.Date? ==> r == None
    ensures c.Int? ==> r == Some(c.i)
    ensures c.Float? ==> r.Some? && TruncatesTo(c.x, r.value)
    ensures c.Text? ==> (r.Some? <==> c.text != "" && ParseDecimal(RemoveSeparators(c.text)).Some?)
  {
    match c
    case Missing => None
    case Text(s) =>
      if s == "" then None
      else
        (match ParseDecimal(RemoveSeparators(s))
         case None => None
         case Some(d) => Some(Trunc(DecimalValue(d))))
    case Int(i) => Some(i)
    case Float(x) => Some(Trunc(x))
    case Date(_, _, _) => None
  }

  /** `clean_value`: blank cells give `None`; `youtube_views` gives whatever
      `clean_number` makes of the cell, as an integer; any other field keeps
      integers and floats as they are and turns everything else into its
      text with the surrounding whitespace stripped. */
  function CleanValue(c: Cell, field: string): (r: Option<Value>)
    ensures IsBlank(c) ==> r == None
    ensures field == YoutubeViews ==>
      && (r.Some? <==> CleanNumber(c).Some?)
      && (r.Some? ==> r.value == VInt(CleanNumber(c).value))
    ensures field != YoutubeViews ==> (r.Some? <==> !IsBlank(c))
    ensures field != YoutubeViews && r.Some? ==>
      && (r.value.VInt? <==> c.Int?)
      && (r.value.VFloat? <==> c.Float?)
      && (r.value.VInt? ==> r.value.i == c.i)
      && (r.value.VFloat? ==> r.value.x == c.x)
    ensures field != YoutubeViews && c.Text? && r.Some? ==> r.value == VText(Strip(c.text))
    ensures field != YoutubeViews && c.Date? ==> r == Some(VText(Strip(IsoDate(c.year, c.month, c.day))))
  {
    if IsBlank(c) then None
    else if field == YoutubeViews then
      match CleanNumber(c)
      case None => None
      case Some(n) => Some(VInt(n))
    else
      match c
      case Float(x) => Some(VFloat(x))
      case Int(i) => Some(VInt(i))
      case Text(s) => Some(VText(Strip(s)))
      case Date(y, m, d) => Some(VText(Strip(IsoDate(y, m, d))))
  }

  /** Text that reads as a literal yields the truncation of the literal's
      exact value, its signed whole part: a sign applies toward zero. */
  lemma CleanNumberText(s: string, d: Decimal)
    requires s != ""
    requires ParseDecimal(RemoveSeparators(s)) == Some(d)
    ensures CleanNumber(Text(s)) == Some(WholePart(d))
  {
    TruncValue(d);
  }

  /** A comma or a space inserted anywhere in the text changes nothing, so
      `"1,234,567"`, `"1 234 567"` and `"1234567"` all read alike. */
  lemma CleanNumberIgnoresSeparator(s: string, k: nat, sep: char)
    requires k <= |s|
    requires sep == ',' || sep == ' '
    ensures CleanNumber(Text(s[..k] + [sep] + s[k..])) == CleanNumber(Text(s))
  {
    RemoveSeparatorsInsert(s, k, sep);
    if s == "" {
      assert ParseDecimal("") == None;
    }
  }

  /** `clean_number` reads back what `str()` writes for an integer, so an
      integer-valued `youtube_views` survives a round trip through text. */
  lemma CleanNumberReadsShowInt(i: int)
    ensures CleanNumber(Text(ShowInt(i))) == Some(i)
  {
    var magnitude: nat := if i < 0 then -i else i;
    var d := Decimal(if i < 0 then Minus else NoSign, ShowNat(magnitude), false, []);
    assert WellFormed(d);
    assert Format(d) == ShowInt(i);
    assert RemoveSeparators(ShowInt(i)) == ShowInt(i);
    ParseFormatted(d);
    CleanNumberText(ShowInt(i), d);
    assert WholePart(d) == i;
  }

  /** The text form of 1234567. */
  lemma ShowSevenDigits()
    ensures ShowInt(1234567) == "1234567"
  {
  }

  /** `"1234567"` with a separator after the first digit and after the
      fourth reads as 1234567. The number is a parameter so that the
      literal stays out of the proof, which keeps it cheap. */
  lemma ThousandsWith(s: string, sep: char, n: int)
    requires sep == ',' || sep == ' '
    requires n == 1234567
    requires s == "1" + [sep] + "234" + [sep] + "567"
    ensures CleanNumber(Text(s)) == Some(n)
  {
    ShowSevenDigits();
    var plain := ShowInt(n);
    var once := plain[..4] + [sep] + plain[4..];
    assert once[..1] + [sep] + once[1..] == s;
    CleanNumberReadsShowInt(n);
    CleanNumberIgnoresSeparator(plain, 4, sep);
    CleanNumberIgnoresSeparator(once, 1, sep);
  }

  /** Thousands separators of either kind: `"1,234,567"` and `"1 234 567"`
      both read as 1234567. */
  lemma CleanNumberThousands(s: string)
    requires s == "1,234,567" || s == "1 234 567"
    ensures CleanNumber(Text(s)) == Some(1234567)
  {
    ThousandsWith(s, s[1], 1234567);
  }

  /** A negative decimal is truncated toward zero: `"-7.9"` reads as -7. */
  lemma CleanNumberNegativeDecimal()
    ensures CleanNumber(Text("-7.9")) == Some(-7)
  {
    var d := Decimal(Minus, "7", true, "9");
    assert Format(d) == "-7.9";
    assert ',' !in "-7.9" && ' ' !in "-7.9";
    assert ShowNat(7) == "7";
    ParseFormatted(d);
    CleanNumberText("-7.9", d);
  }

  /** Text that is not a number, and text that is only a separator, give
      `None` rather than an exception. */
  lemma CleanNumberUnreadable()
    ensures CleanNumber(Text("abc")) == None
    ensures CleanNumber(Text(" ")) == None
  {
    assert ',' !in "abc" && ' ' !in "abc";
    assert DigitRun("abc", 0) == 0;
    assert RemoveSeparators(" ") == "";
  }

  /** The cell a cleaned value would be read back as. */
  function AsCell(v: Value): Cell
  {
    match v
    case VText(t) => Text(t)
    case VInt(i) => Int(i)
    case VFloat(x) => Float(x)
  }

  /** Cleaning is idempotent: a value `clean_value` produced, fed back in as a
      cell of the same field, comes out unchanged, except the empty text a
      whitespace-only cell produces (see `WhitespaceCellBecomesEmptyText`). */
  lemma {:induction false} CleanValueIdempotent(c: Cell, field: string)
    requires CleanValue(c, field).Some?
    requires CleanValue(c, field).value != VText("")
    ensures CleanValue(AsCell(CleanValue(c, field).value), field) == CleanValue(c, field)
  {
    var v := CleanValue(c, field).value;
    if field == YoutubeViews {
      assert CleanNumber(Int(v.i)) == Some(v.i);
    } else if v.VText? {
      var raw := if c.Text? then c.text else IsoDate(c.year, c.month, c.day);
      assert v.text == Strip(raw);
      StripIdempotent(raw);
      CleanStrippedText(v.text, field);
    } else {
      assert AsCell(v) == c;
    }
  }

  /** Text that is already stripped and not empty is kept as it is. */
  lemma CleanStrippedText(t: string, field: string)
    requires field != YoutubeViews
    requires t != "" && Strip(t) == t
    ensures CleanValue(Text(t), field) == Some(VText(t))
  {
  }

  /** A cell of whitespace only passes the emptiness test, which runs before
      the strip, so it yields the empty text rather than `None`; cleaning that
      empty text again gives `None`. */
  lemma WhitespaceCellBecomesEmptyText(s: string, field: string)
    requires s != "" && AllSpace(s)
    requires field != YoutubeViews
    ensures CleanValue(Text(s), field) == Some(VText(""))
    ensures CleanValue(AsCell(VText("")), field) == None
  {
  }
}
