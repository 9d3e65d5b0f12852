/** The batch loop `import_songs` (main.py:174-229) and the decision taken by
    `save_failed_records` (main.py:141-172). The sink, the clock and Python's
    float formatting are parameters; the run's observable behaviour is its two
    counters, its list of failed entries, the exception that may escape it,
    and the ordered trace of sink inserts and the final flush. */
module Importer {
  import opened Wrappers
  import opened Cells
  import opened Records

  /** The sink's answer to one insert: it returned, or it raised with a message. */
  datatype SinkReply = Accepted | Rejected(message: string)

  /** What a run cannot see into: the sink (row position and record to its
      reply), the clock (row position to the `%Y-%m-%d %H:%M:%S` stamp taken
      when that row fails) and Python's formatting of a float. */
  datatype Env = Env(sink: (nat, Record) -> SinkReply, clock: nat -> string, showFloat: real -> string)

  /** A failed row as kept for the failure files: the raw row plus two fields. */
  type FailedRecord = map<string, Cell>

  const ErrorMessage := "error_message"
  const ErrorTime := "error_time"
  const FailureDir := "failed_imports"

  /** `row.to_dict()` with `error_message` and `error_time` set (main.py:205-209):
      every field of the raw row, unchanged unless it bears one of the two
      names, plus the two diagnostics. */
  function FailedEntry(row: Row, message: string, time: string): (r: FailedRecord)
    ensures forall k :: k in r <==> k in row || k == ErrorMessage || k == ErrorTime
    ensures r[ErrorMessage] == Text(message) && r[ErrorTime] == Text(time)
    ensures forall k :: k in row && k != ErrorMessage && k != ErrorTime ==> r[k] == row[k]
  {
    row[ErrorMessage := Text(message)][ErrorTime := Text(time)]
  }

  /** What `save_failed_records` does: nothing but a log line, or write the
      whole list to a CSV file and a JSON file. */
  datatype FlushAction =
    | NothingToSave
    | WriteFiles(csvPath: string, jsonPath: string, records: seq<FailedRecord>)

  /** What `save_failed_records` as written comes to: the two files are
      written, or `json.dump` (main.py:163), given no `default=`, raises
      `TypeError` on a `datetime.date` once the CSV file is already written. */
  datatype SaveOutcome = Saved(action: FlushAction) | JsonTypeError(csvPath: string)

  /** A failure entry holding a `datetime.date`, which `json.dump` cannot encode. */
  predicate HoldsDate(r: FailedRecord)
  {
    exists k :: k in r && r[k].Date?
  }

  /** `save_failed_records` as written (main.py:141-163): a list with a dated
      entry gets its CSV file and then raises; any other list is saved as
      `SaveFailedRecords` describes. */
  function SaveFailedRecordsAsWritten(failed: seq<FailedRecord>, stamp: string): (o: SaveOutcome)
    ensures o.JsonTypeError? <==> exists i :: 0 <= i < |failed| && HoldsDate(failed[i])
    ensures o.JsonTypeError? ==> o.csvPath == FailureDir + "/failed_records_" + stamp + ".csv"
    ensures o.Saved? ==> o.action == SaveFailedRecords(failed, stamp)
  {
    if exists i :: 0 <= i < |failed| && HoldsDate(failed[i]) then
      JsonTypeError(FailureDir + "/failed_records_" + stamp + ".csv")
    else Saved(SaveFailedRecords(failed, stamp))
  }

  /** `save_failed_records`: writes exactly when the list is not empty, then
      both files hold the whole list and differ only in their extension, under
      one directory and one time stamp. */
  function SaveFailedRecords(failed: seq<FailedRecord>, stamp: string): (a: FlushAction)
    ensures a.NothingToSave? <==> failed == []
    ensures a.WriteFiles? ==> a.records == failed
    ensures a.WriteFiles? ==>
      var stem := FailureDir + "/failed_records_" + stamp;
      a.csvPath == stem + ".csv" && a.jsonPath == stem + ".json"
  {
    if failed == [] then NothingToSave
    else
      var stem := FailureDir + "/failed_records_" + stamp;
      WriteFiles(stem + ".csv", stem + ".json", failed)
  }

  /** One observable action of a run, in the order it happens. */
  datatype Effect = Insert(index: nat, record: Record) | Flush(action: FlushAction)

  /** The exception that leaves the loop: the first row's record could not be
      built, and the handler's log line (main.py:202) then reads `song_data`,
      which no row has bound yet. */
  datatype Escape = UnboundSongData(index: nat, cause: string)

  /** What becomes of one row, independently of the rows before it. */
  datatype Fate =
    | Unprepared(message: string)
    | Untitled
    | Inserted(record: Record)
    | Refused(record: Record, message: string)

  /** The row's fate (main.py:186-198): its record cannot be built; or the
      record has no `title`, which the log line at main.py:189 reads before any
      insert; or the sink takes it; or the sink raises. */
  function FateOf(row: Row, i: nat, env: Env): (f: Fate)
    ensures f.Unprepared? <==> PrepareSongData(row, env.showFloat).Failure?
    ensures f.Unprepared? ==> f.message == PrepareSongData(row, env.showFloat).error
    ensures f.Untitled? <==>
      PrepareSongData(row, env.showFloat).Success? && Title !in PrepareSongData(row, env.showFloat).value
    ensures f.Inserted? || f.Refused? ==>
      PrepareSongData(row, env.showFloat) == Success(f.record) && Title in f.record
    ensures f.Inserted? <==>
      && PrepareSongData(row, env.showFloat).Success?
      && Title in PrepareSongData(row, env.showFloat).value
      && env.sink(i, PrepareSongData(row, env.showFloat).value) == Accepted
    ensures f.Refused? ==> env.sink(i, f.record) == Rejected(f.message)
  {
    match PrepareSongData(row, env.showFloat)
    case Failure(e) => Unprepared(e)
    case Success(rec) =>
      if Title !in rec then Untitled
      else
        match env.sink(i, rec)
        case Accepted => Inserted(rec)
        case Rejected(m) => Refused(rec, m)
  }

  predicate CallsSink(f: Fate)
  {
    f.Inserted? || f.Refused?
  }

  /** The `str(e)` the handler records for a row that did not go in. */
  function FailureMessage(f: Fate): string
    requires !f.Inserted?
  {
    match f
    case Unprepared(m) => m
    case Untitled => KeyErrorMessage(Title)
    case Refused(_, m) => m
  }

  /** The loop's variables: the two counters, the importer's failure list,
      whether `song_data` has been bound, and the trace of inserts so far. */
  datatype LoopState = LoopState(
    successful: nat,
    failed: nat,
    failedRecords: seq<FailedRecord>,
    songDataBound: bool,
    effects: seq<Effect>)

  /** What the loop body does with row `i` once its fate is known. A row
      that does not go in appends one entry and counts one failure; a row
      that goes in counts one success; nothing else changes, except that the
      only failure escaping the body is a record that cannot be built while
      `song_data` is still unbound. */
  function Advance(st: LoopState, i: nat, row: Row, fate: Fate, clock: nat -> string): (r: Result<LoopState, Escape>)
    ensures r.Failure? <==> !st.songDataBound && fate.Unprepared?
    ensures r.Failure? ==> r.error == UnboundSongData(i, fate.message)
    ensures r.Success? ==> r.value.successful + r.value.failed == st.successful + st.failed + 1
    ensures r.Success? ==>
      && r.value.successful == st.successful + (if fate.Inserted? then 1 else 0)
      && r.value.failed == st.failed + (if fate.Inserted? then 0 else 1)
      && r.value.failedRecords == st.failedRecords
         + (if fate.Inserted? then [] else [FailedEntry(row, FailureMessage(fate), clock(i))])
      && r.value.effects == st.effects
         + (if CallsSink(fate) then [Insert(i, fate.record)] else [])
      && r.value.songDataBound
  {
    if fate.Unprepared? && !st.songDataBound then
      Failure(UnboundSongData(i, fate.message))
    else
      var bound := st.(songDataBound := true);
      var called :=
        if CallsSink(fate) then bound.(effects := bound.effects + [Insert(i, fate.record)]) else bound;
      if fate.Inserted? then
        Success(called.(successful := called.successful + 1))
      else
        Success(called.(
          failed := called.failed + 1,
          failedRecords := called.failedRecords + [FailedEntry(row, FailureMessage(fate), clock(i))]))
  }

  /** The body of the `for` loop (main.py:184-213) for row `i`: the row's
      fate decides everything, and the exception escapes only for a first
      row whose record cannot be built. */
  function Step(st: LoopState, i: nat, row: Row, env: Env): (r: Result<LoopState, Escape>)
    ensures r.Failure? <==> !st.songDataBound && PrepareSongData(row, env.showFloat).Failure?
    ensures r.Failure? ==> r.error == UnboundSongData(i, PrepareSongData(row, env.showFloat).error)
    ensures r.Success? ==> r.value.successful + r.value.failed == st.successful + st.failed + 1
    ensures r.Success? ==> r.value.songDataBound
  {
    Advance(st, i, row, FateOf(row, i, env), env.clock)
  }

  predicate AllInserts(effects: seq<Effect>)
  {
    forall j :: 0 <= j < |effects| ==> effects[j].Insert?
  }

  /** Where the loop stops: its final variables, and the exception that cut
      it short, if one did. */
  datatype LoopEnd = LoopEnd(state: LoopState, escaped: Option<Escape>)

  /** The `for` loop from row `i` on, rows strictly in order. Without an
      escape every remaining row is counted exactly once; the trace stays a
      trace of inserts and the failure list only grows. */
  function Loop(rows: seq<Row>, i: nat, st: LoopState, env: Env): (r: LoopEnd)
    requires i <= |rows|
    ensures AllInserts(st.effects) ==> AllInserts(r.state.effects)
    ensures r.escaped.None? ==>
      r.state.successful + r.state.failed == st.successful + st.failed + (|rows| - i)
    ensures |r.state.failedRecords| - |st.failedRecords| == r.state.failed - st.failed
    ensures |st.failedRecords| <= |r.state.failedRecords|
    ensures r.state.failedRecords[..|st.failedRecords|] == st.failedRecords
    ensures st.failed <= r.state.failed
    decreases |rows| - i
  {
    if i == |rows| then LoopEnd(st, None)
    else
      match Step(st, i, rows[i], env)
      case Failure(e) => LoopEnd(st, Some(e))
      case Success(st') =>
        var r := Loop(rows, i + 1, st', env);
        assert st'.failedRecords[..|st.failedRecords|] == st.failedRecords;
        assert r.state.failedRecords[..|st.failedRecords|]
            == r.state.failedRecords[..|st'.failedRecords|][..|st.failedRecords|];
        r
  }

  /** The outcome of one call of `import_songs`. */
  datatype ImportRun = ImportRun(
    totalRows: nat,
    successful: nat,
    failed: nat,
    failedRecords: seq<FailedRecord>,
    escaped: Option<Escape>,
    effects: seq<Effect>)

  /** `import_songs` on an importer whose failure list is `pending` (empty
      for a fresh importer). Whether or not an exception escapes, the run
      ends with exactly one flush, after every insert, of the whole failure
      list; a run that completes counts every row once. */
  function ImportSongs(rows: seq<Row>, pending: seq<FailedRecord>, env: Env, stamp: string): (run: ImportRun)
    ensures run.totalRows == |rows|
    ensures |run.effects| > 0
    ensures run.effects[|run.effects| - 1] == Flush(SaveFailedRecords(run.failedRecords, stamp))
    ensures forall j :: 0 <= j < |run.effects| - 1 ==> run.effects[j].Insert?
    ensures run.escaped.None? ==> run.successful + run.failed == run.totalRows
    ensures |run.failedRecords| == |pending| + run.failed
    ensures run.failedRecords[..|pending|] == pending
  {
    var end := Loop(rows, 0, LoopState(0, 0, pending, false, []), env);
    var st := end.state;
    ImportRun(
      |rows|, st.successful, st.failed, st.failedRecords, end.escaped,
      st.effects + [Flush(SaveFailedRecords(st.failedRecords, stamp))])
  }
}
