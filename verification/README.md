# Song importer core, modelled in Dafny

This project models the core of `main.py`, a batch importer. The importer
reads rows of a semicolon-separated song list and cleans each cell. It builds
one record per row over seventeen fixed fields and inserts each record into a
remote `songs` table. Rows that fail are collected, and at the end the
importer sets out to write them to a CSV file and a JSON file. As written, the
JSON file cannot be completed when a failed row holds a date (see
"## Findings").

The model covers these parts of `SongDataImporter`:

- `clean_number`, as `Cells.CleanNumber`. Underneath it sit the separator
  removal (`Strings.RemoveSeparators`), a decimal-literal reader
  (`Decimals.ParseDecimal`) and truncation toward zero (`Decimals.Trunc`).
- `clean_value`, as `Cells.CleanValue`, with Python's `str.strip()` written
  out as `Strings.Strip` over the full `str.isspace()` class.
- `prepare_song_data`, as `Records.PrepareSongData`. The `KeyError` of a
  missing column is a `Failure` carrying `str(e)`.
- `import_songs`, as `Importer.ImportSongs`, a fold of `Importer.Step` over
  the rows. The remote table is a parameter `sink` that accepts or rejects
  each record. The run's outcome holds:
  - the two counters;
  - the importer's failure list;
  - the exception that may escape;
  - an ordered trace of inserts, ending in exactly one flush.
- The decision in `save_failed_records`, as `Importer.SaveFailedRecords`:
  either nothing to save, or two files under one time stamp.

The loop has an independent, row-by-row description in module `ImportSpec`.
There, each row's fate (`Importer.FateOf`) is decided on its own. The failure
list, the counters and the inserts are recursive functions of those fates.
`ImportSpec.ImportFollowsFates` proves that the loop produces exactly that
description. The properties of a run are then proved from the description.

A cell is the tagged variant `Cells.Cell`: `Missing | Text | Int | Float |
Date`. NaN, `None` and `NaT` are all `Missing`. `Date` is there because
`read_csv` turns `album_date` into `datetime.date` values (main.py:125). Three
things outside the code's reach are parameters of `Importer.Env`:

- the sink;
- the clock that stamps `error_time`;
- Python's `str()` of a float.

Three behaviours of the code are easy to miss:

- A record that cannot be built does not simply fail its row. On the first
  row, the handler's log line (main.py:202) reads `song_data` before any row
  has bound it. The resulting `UnboundLocalError` escapes the loop, and the
  run stops after the flush (`ImportSpec.FirstRowEscape`). On later rows the
  row fails normally.
- The title is read for a log line before the insert (main.py:188-190). A
  record without a title therefore fails with `KeyError('title')` and never
  reaches the sink (`ImportSpec.UntitledRowNeverInserted`).
- Cleaning is idempotent except for one case. A cell of whitespace only gives
  the empty text, and cleaning that again gives `None`, which drops the field
  (`Cells.WhitespaceCellBecomesEmptyText`). `Cells.CleanValueIdempotent` and
  `Records.PrepareIdempotent` exclude exactly that case.

## Model

| member | source | states |
|---|---|---|
| Strings.Strip | main.py:73 | `str.strip()`: the result is the slice of the input left after cutting the maximal runs of whitespace at both ends; it is empty iff the input is all whitespace and otherwise neither starts nor ends with whitespace |
| Strings.StripIdempotent | main.py:73 | stripping a stripped text changes nothing |
| Strings.RemoveSeparators | main.py:48 | the two `replace` calls leave no comma and no space, and leave text without either unchanged |
| Strings.RemoveSeparatorsInsert | main.py:48 | inserting a comma or a space anywhere leaves the cleaned text unchanged |
| Decimals.ParseDecimal | main.py:49 | every text the reader accepts is a well-formed literal written exactly as that text |
| Decimals.ParseFormatted | main.py:49 | every well-formed literal is read back from its own text: reading inverts writing |
| Decimals.ParseDecimalIff | main.py:49 | a text reads as a given literal iff that literal is well formed and written as exactly that text |
| Decimals.Trunc | main.py:52 | `int()` truncates toward zero: the result is at most the number and within one below it for a non-negative number, at least the number and within one above it for a negative one |
| Decimals.TruncValue | main.py:49 | the exact value of a well-formed literal truncates toward zero to its signed whole part, the sign applied after truncation |
| Cells.CleanNumber | main.py:37-56 | blank and date cells give `None`; integers come back unchanged; floats are truncated toward zero; text gives a number iff it is non-empty and reads as a literal once commas and spaces are gone |
| Cells.CleanNumberText | main.py:46-49 | text that reads as a literal after separator removal gives that literal's signed whole part |
| Cells.CleanNumberIgnoresSeparator | main.py:46-49 | a comma or space inserted anywhere in a text cell does not change what `clean_number` makes of it |
| Cells.CleanNumberReadsShowInt | main.py:46-49 | the text `str()` writes for any integer reads back as that integer |
| Cells.CleanNumberThousands | main.py:46-49 | `"1,234,567"` and `"1 234 567"` both give 1234567 |
| Cells.CleanNumberNegativeDecimal | main.py:49 | `"-7.9"` gives -7: truncation goes toward zero, not down |
| Cells.CleanNumberUnreadable | main.py:44-56 | `"abc"` and `" "` give `None` rather than an exception |
| Cells.CleanValue | main.py:58-73 | blank cells give `None`; `youtube_views` gives an integer exactly when `clean_number` does; other fields keep integers and floats with their values and turn text and dates into their stripped text form, `None` never arising from a present non-empty cell |
| Cells.CleanValueIdempotent | main.py:58-73 | a cleaned value fed back in as a cell of the same field comes out unchanged, unless it is the empty text |
| Cells.WhitespaceCellBecomesEmptyText | main.py:62-73 | a whitespace-only cell passes the emptiness test and yields the empty text, which a second cleaning turns into `None` |
| Records.AlbumDateValue | main.py:88-90 | `album_date` is `None` exactly for an NA cell, and otherwise the cell's unstripped text form |
| Records.SongData | main.py:79-99 | the dictionary literal fails exactly when some column is missing, with the `KeyError` of the first missing column in literal order, and otherwise holds exactly the seventeen fields |
| Records.SongDataValues | main.py:80-98 | each entry of a built dictionary literal is its field's cleaned value, read from the row's column of that name |
| Records.DropNone | main.py:102 | the comprehension keeps a key exactly when its value is not `None`, with that value |
| Records.PrepareSongData | main.py:75-102 | fails iff some of the seventeen columns is missing, with the first one's `KeyError`; otherwise the record's keys are song fields only, a field is present iff its cleaned value is not `None`, and then holds that value |
| Records.PreparedFields | main.py:79-99 | `title` is present iff its cell is not blank; `youtube_views`, when present, is an integer; `album_date` is present iff its cell is not NA, as its text form unstripped |
| Records.PrepareIdempotent | main.py:75-102 | building a record again from a built record gives the same record, unless a cleaned field held the empty text |
| Records.SongDataAgree | main.py:79-99 | two complete rows whose fields clean alike build the same dictionary |
| Importer.FailedEntry | main.py:205-209 | the failure entry has every raw column unchanged, plus `error_message` and `error_time` holding the message and the stamp |
| Importer.SaveFailedRecords | main.py:141-161 | nothing is written iff the failure list is empty; otherwise both files hold the whole list and share the directory, the stem and the stamp, differing only in extension |
| Importer.FateOf | main.py:186-198 | a row's record cannot be built, or it lacks a title, or it goes to the sink; it reaches the sink only with a built, titled record; it is inserted exactly when its record is built and titled and the sink accepts it, a refused row carries the sink's message, and a row whose record cannot be built carries the `KeyError` text |
| Importer.Advance | main.py:184-213 | the body escapes only for an unbuildable record while `song_data` is unbound; otherwise exactly one counter goes up by one, the success counter for an inserted row and the failure counter for any other, and the failure list gains exactly the failed row's entry |
| Importer.Step | main.py:184-213 | the loop body escapes iff no row has bound `song_data` and the record cannot be built, carrying the `KeyError` text; otherwise it counts the row once |
| Importer.Loop | main.py:183-213 | rows are taken in order; without an escape each remaining row is counted exactly once; the failure list only grows, by one entry per failure |
| Importer.ImportSongs | main.py:174-229 | every run ends with exactly one flush of the whole failure list, after all inserts; a run that completes counts `total_rows`; the failure list grows by exactly the failures |
| ImportSpec.AdvanceFollowsFate | main.py:184-213 | one pass of the body moves the row-by-row description on by one row |
| ImportSpec.LoopFollowsFates | main.py:183-213 | once a row has bound `song_data`, the loop runs to the end exactly as the rows' fates describe |
| ImportSpec.ImportFollowsFates | main.py:174-220 | the run escapes iff the first row's record cannot be built; otherwise its counters, failure list and inserts are those the rows' fates describe; the flush comes last |
| ImportSpec.FirstRowEscape | main.py:183-220 | a first row whose record cannot be built ends the run: the exception escapes, nothing is counted, inserted or appended, and the flush still runs over the failures already pending |
| ImportSpec.MissingColumnStopsRun | main.py:79-99 | a column missing from the file fails every row alike, and the run stops at the first row with that column's `KeyError` and no insert |
| ImportSpec.EveryRowCountedOnce | main.py:178-212 | every processed row increments exactly one counter, and the failure list grows by one entry per failure |
| ImportSpec.SinkCallsInRowOrder | main.py:183-198 | the sink is called at most once per row, in strictly increasing row order, exactly for the processed rows with a built, titled record, and with that record |
| ImportSpec.FailedRowRecorded | main.py:200-210 | every row that did not go in has its entry, with its raw data, message and stamp, in the failure list |
| ImportSpec.UntitledRowNeverInserted | main.py:186-210 | a record without a title never reaches the sink and is recorded with the `KeyError` for `title` |
| ImportSpec.RowIsolation | main.py:183-220 | when the sink refuses one row only, every row is processed, with one failure and all others successes; the failure list holds exactly that row's raw data and message; the model's flush writes both files, which the source does only if that row holds no date (see "## Findings") |
| Importer.SaveFailedRecordsAsWritten | main.py:141-163 | the flush as written raises `TypeError`, after the CSV file, exactly when some failure entry holds a date; otherwise it does what `SaveFailedRecords` describes |
| ImportSpec.DatedFailureBreaksJson | main.py:125-163 | a run whose first record can be built, so that it completes, and in which a row with a dated `album_date` did not go in ends, as written, in the `TypeError` of `json.dump` |
| ImportSpec.DatedFailureSaved | main.py:141-163 | under the corrected flush the same run writes both files, and the saved records include that row's date |
| ImportSpec.AllAcceptedNothingToSave | main.py:141-147 | when every row goes in, all are counted as successes and the flush writes nothing |

## Left out

- Reading the CSV file (main.py:104-139) is not modelled: encoding detection with `chardet`, `pandas.read_csv`, lower-casing the column names, `pd.to_datetime` on `album_date` and the NaN replacement. The model starts from the rows that step produces.
- The Supabase client (main.py:32, main.py:193) is replaced by the `sink` parameter of `Importer.Env`. It answers each insert with success or a message. The row position is passed so that answers can differ from row to row.
- Writing the two files (main.py:149-172) is not modelled: `mkdir`, the `DataFrame` CSV writer, `json.dump`, and the `%Y%m%d_%H%M%S` clock reading. The flush is a value naming both paths and the records. The time stamp is a parameter.
- `error_time` comes from the `clock` parameter, indexed by row position. The `%Y-%m-%d %H:%M:%S` format is not modelled.
- Logging is not modelled: every `logger` call and the summary in the `finally` block.
- The exact type and wording of the escaping exception are not modelled. `Importer.Escape` records only the failing row and the `KeyError` text.
- `main()` and the environment configuration (main.py:232-260) are not modelled.
- `Importer.ImportSongs` uses the corrected flush, which cannot fail. As written, `json.dump` (main.py:163) raises `TypeError` on the `datetime.date` that `row.to_dict()` keeps for `album_date`. So a failure entry with a date makes `save_failed_records`, and with it `import_songs`, raise after the CSV file is written. That exception replaces any escaping one and skips the summary log. `Importer.SaveFailedRecordsAsWritten` models the raise; the run itself does not carry it. Other I/O errors while saving are not modelled.
- Cells.CleanNumber: `float()` accepts more text than the model's grammar: exponents, `inf`, `nan`, underscores, non-ASCII decimal digits (`"١٢"` is 12.0), and surrounding whitespace other than the removed space, such as tabs, newlines or a no-break space. On such text the model answers `None`. In Python, `"1e3"` gives 1000. `"inf"` makes `int()` raise `OverflowError`, which `clean_number` does not catch.
- Cells.CleanNumber: a literal in the grammar of about 1.8e308 or more overflows to `inf` in `float()`. `int()` then raises `OverflowError`, which main.py:54 does not catch, so `prepare_song_data` raises: the row fails, or at row 0 the run escapes. The model gives the literal's whole part.
- Cells.CleanNumber: text literals are read as exact decimals, not rounded to IEEE-754 doubles. The two disagree wherever rounding to a double crosses an integer: above 2^53, and for a fraction within half a unit in the last place below the next integer, e.g. `"0.99999999999999999"` gives 1 in Python and 0 here.
- Floats are modelled as exact reals. NaN is `Missing` and infinities do not occur.
- Python's `str()` of a float, which reaches the record only through `album_date`, is the `showFloat` parameter.
- Dates are not checked for calendar validity.
- Boolean cells and numpy scalar types other than plain integers and floats are not modelled.

## Findings

| source | as written | input that shows it | evidently intended | confidence | as-written member | corrected member |
|---|---|---|---|---|---|---|
| main.py:163 | the failure list goes to `json.dump` with no `default=` encoder, while `album_date` holds `datetime.date` values (main.py:125) that `row.to_dict()` (main.py:205) keeps in each failure entry | any row with a non-empty `album_date` that the sink rejects: the CSV file is written, then `TypeError: Object of type date is not JSON serializable` leaves `save_failed_records` and `import_songs` half-way through the JSON file | both failure files are written for every non-empty failure list, dates as text | not executed; high | Importer.SaveFailedRecordsAsWritten, ImportSpec.DatedFailureBreaksJson | Importer.SaveFailedRecords, ImportSpec.DatedFailureSaved |
