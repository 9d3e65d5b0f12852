/** The record builder `prepare_song_data` (main.py:75-102): seventeen fixed
    fields read from a raw row, `album_date` taken as text as it stands, every
    other field cleaned by `clean_value`, and every field whose value came out
    `None` dropped. */
module Records {
  import opened Wrappers
  import opened Strings
  import opened Cells

  /** A row of the source file, column name to cell (pandas' `row`). */
  type Row = map<string, Cell>

  /** A record ready for the sink: field name to cleaned value. */
  type Record = map<string, Value>

  const Title := "title"
  const AlbumDate := "album_date"

  /** The keys of the dictionary literal at main.py:79-99, in its order. */
  const SongFields: seq<string> := [
    "title", "artist", "average_score", "score_2024_10", "score_2024_q3",
    "score_2024_q2", "score_2024_q1", "score_2023", "album_date", "language",
    "genre", "playlists_name", "energy", "youtube_url", "youtube_views",
    "spotify_url", "album_name"]

  predicate IsSongField(f: string)
  {
    f in SongFields
  }

  /** Python's `str()` of a cell that is not NA. `showFloat` stands for
      Python's formatting of a float, which is not modelled. */
  function StrForm(c: Cell, showFloat: real -> string): string
    requires !c.Missing?
  {
    match c
    case Text(s) => s
    case Int(i) => ShowInt(i)
    case Float(x) => showFloat(x)
    case Date(y, m, d) => IsoDate(y, m, d)
  }

  /** `album_date`'s entry (main.py:88-90): `None` for NA, otherwise the
      cell's text form as it stands, neither stripped nor emptied. */
  function AlbumDateValue(c: Cell, showFloat: real -> string): (r: Option<Value>)
    ensures r.None? <==> c.Missing?
    ensures r.Some? ==> r.value == VText(StrForm(c, showFloat))
  {
    if c.Missing? then None else Some(VText(StrForm(c, showFloat)))
  }

  /** The entry the dictionary literal holds for field `f`. */
  function FieldValue(row: Row, f: string, showFloat: real -> string): Option<Value>
    requires f in row
  {
    if f == AlbumDate then AlbumDateValue(row[f], showFloat) else CleanValue(row[f], f)
  }

  /** The position of the first of `fields[i..]` that is not among `keys`;
      `|fields|` when all of them are. */
  function FirstMissing(keys: set<string>, fields: seq<string>, i: nat): (k: nat)
    requires i <= |fields|
    ensures i <= k <= |fields|
    ensures forall j :: i <= j < k ==> fields[j] in keys
    ensures k < |fields| ==> fields[k] !in keys
    decreases |fields| - i
  {
    if i < |fields| && fields[i] in keys then FirstMissing(keys, fields, i + 1) else i
  }

  /** `str(e)` for `e = KeyError(key)`: the key in quotes. */
  function KeyErrorMessage(key: string): string
  {
    "'" + key + "'"
  }

  /** The dictionary literal at main.py:79-99, `None` entries included.
      Reading a column the row lacks raises `KeyError`; the literal is
      evaluated in order, so the first such column is the one reported. */
  function SongData(row: Row, showFloat: real -> string): (r: Result<map<string, Option<Value>>, string>)
    ensures r.Success? <==> FirstMissing(row.Keys, SongFields, 0) == |SongFields|
    ensures r.Failure? ==> r.error == KeyErrorMessage(SongFields[FirstMissing(row.Keys, SongFields, 0)])
    ensures r.Success? ==> forall f :: f in r.value <==> IsSongField(f)
  {
    var k := FirstMissing(row.Keys, SongFields, 0);
    if k < |SongFields| then Failure(KeyErrorMessage(SongFields[k]))
    else Success(map f | f in SongFields :: FieldValue(row, f, showFloat))
  }

  /** Each entry of the literal is that field's cleaned value (main.py:80-98). */
  lemma SongDataValues(row: Row, showFloat: real -> string)
    requires SongData(row, showFloat).Success?
    ensures forall f :: f in SongData(row, showFloat).value ==>
      f in row && SongData(row, showFloat).value[f] == FieldValue(row, f, showFloat)
  {
  }

  /** `{k: v for k, v in song_data.items() if v is not None}` (main.py:102). */
  function DropNone(m: map<string, Option<Value>>): (r: Record)
    ensures forall k :: k in r <==> k in m && m[k].Some?
    ensures forall k :: k in r ==> m[k] == Some(r[k])
  {
    map k | k in m && m[k].Some? :: m[k].value
  }

  /** `prepare_song_data`: fails, with the first absent column's `KeyError`,
      exactly when the row lacks one of the seventeen fields; otherwise a
      record over those fields only, holding a field exactly when its entry
      is not `None` and then holding that entry's value. */
  function PrepareSongData(row: Row, showFloat: real -> string): (r: Result<Record, string>)
    ensures r.Failure? <==> exists f :: IsSongField(f) && f !in row
    ensures r.Failure? ==> r.error == KeyErrorMessage(SongFields[FirstMissing(row.Keys, SongFields, 0)])
    ensures r.Success? ==> forall f :: f in r.value ==> IsSongField(f)
    ensures r.Success? ==> forall f :: IsSongField(f) ==>
      (f in r.value <==> FieldValue(row, f, showFloat).Some?)
    ensures r.Success? ==> forall f :: f in r.value ==>
      FieldValue(row, f, showFloat) == Some(r.value[f])
  {
    match SongData(row, showFloat)
    case Failure(e) => Failure(e)
    case Success(m) => Success(DropNone(m))
  }

  /** What the record says of the fields the importer relies on: `title` is
      present exactly when its cell is not blank; `youtube_views`, when
      present, is an integer; `album_date` is present exactly when its cell is
      not NA, as that cell's text form unstripped. */
  lemma PreparedFields(row: Row, showFloat: real -> string)
    requires PrepareSongData(row, showFloat).Success?
    ensures var rec := PrepareSongData(row, showFloat).value;
      && (Title in rec <==> !IsBlank(row[Title]))
      && (YoutubeViews in rec ==> rec[YoutubeViews].VInt?)
      && (AlbumDate in rec <==> !row[AlbumDate].Missing?)
      && (AlbumDate in rec ==> rec[AlbumDate] == VText(StrForm(row[AlbumDate], showFloat)))
  {
    assert IsSongField(Title) && IsSongField(YoutubeViews) && IsSongField(AlbumDate);
  }

  /** The row a record reads back as: each present field's value as a cell,
      each absent field missing. */
  function Reload(rec: Record): (row: Row)
    ensures forall f :: f in row <==> IsSongField(f)
  {
    map f | f in SongFields :: if f in rec then AsCell(rec[f]) else Missing
  }

  /** Normalising a normalised record again changes nothing, provided no
      cleaned field holds the empty text a whitespace-only cell leaves behind
      (that one is dropped on the second pass). */
  lemma {:induction false} PrepareIdempotent(row: Row, showFloat: real -> string)
    requires PrepareSongData(row, showFloat).Success?
    requires forall f :: f in PrepareSongData(row, showFloat).value && f != AlbumDate ==>
      PrepareSongData(row, showFloat).value[f] != VText("")
    ensures PrepareSongData(Reload(PrepareSongData(row, showFloat).value), showFloat)
      == PrepareSongData(row, showFloat)
  {
    var rec := PrepareSongData(row, showFloat).value;
    var again := Reload(rec);
    forall f | IsSongField(f)
      ensures FieldValue(again, f, showFloat) == FieldValue(row, f, showFloat)
    {
      if f in rec {
        if f != AlbumDate {
          CleanValueIdempotent(row[f], f);
        }
      }
    }
    SongDataAgree(again, row, showFloat);
  }

  /** Two rows with every field whose entries agree build the same literal. */
  lemma SongDataAgree(a: Row, b: Row, showFloat: real -> string)
    requires forall f :: IsSongField(f) ==> f in a && f in b
    requires forall f :: IsSongField(f) ==> FieldValue(a, f, showFloat) == FieldValue(b, f, showFloat)
    ensures SongData(a, showFloat) == SongData(b, showFloat)
  {
    assert forall j :: 0 <= j < |SongFields| ==> IsSongField(SongFields[j]);
    assert FirstMissing(a.Keys, SongFields, 0) == |SongFields|;
    assert FirstMissing(b.Keys, SongFields, 0) == |SongFields|;
    var ma := map f | f in SongFields :: FieldValue(a, f, showFloat);
    var mb := map f | f in SongFields :: FieldValue(b, f, showFloat);
    assert ma.Keys == mb.Keys;
    forall f | f in ma ensures ma[f] == mb[f] {
      assert IsSongField(f);
    }
    assert ma == mb;
  }
}
