/** `import_songs` described row by row: what a run leaves behind, stated
    from each row's fate alone with no loop state, the proof that the loop
    matches that description, and the properties that follow from it. */
module ImportSpec {
  import opened Wrappers
  import opened Records
  import opened Importer

  /** Every row's fate, each decided on its own. */
  function FatesOf(rows: seq<Row>, env: Env): (fates: seq<Fate>)
    ensures |fates| == |rows|
  {
    if rows == [] then []
    else FatesOf(rows[..|rows| - 1], env) + [FateOf(rows[|rows| - 1], |rows| - 1, env)]
  }

  /** The fate listed for row `i` is the one that row meets at position `i`. */
  lemma {:induction false} FateAt(rows: seq<Row>, env: Env, i: nat)
    requires i < |rows|
    ensures FatesOf(rows, env)[i] == FateOf(rows[i], i, env)
  {
    var init := rows[..|rows| - 1];
    if i < |rows| - 1 {
      FateAt(init, env, i);
      assert init[i] == rows[i];
    }
  }

  /** The loop stops at its first row exactly when that row's record cannot
      be built: no row has bound `song_data` yet. */
  predicate EscapesAtFirstRow(fates: seq<Fate>)
  {
    |fates| > 0 && fates[0].Unprepared?
  }

  /** How many rows the loop gets through. */
  function Processed(fates: seq<Fate>): nat
  {
    if EscapesAtFirstRow(fates) then 0 else |fates|
  }

  /** The failure entries rows `0..n` leave behind, in row order: one per
      row that did not go in, stamped by the clock at that row. */
  function Failures(rows: seq<Row>, fates: seq<Fate>, n: nat, clock: nat -> string): (r: seq<FailedRecord>)
    requires |fates| == |rows| && n <= |rows|
    ensures |r| <= n
  {
    if n == 0 then []
    else
      Failures(rows, fates, n - 1, clock)
      + (if fates[n - 1].Inserted? then []
         else [FailedEntry(rows[n - 1], FailureMessage(fates[n - 1]), clock(n - 1))])
  }

  /** The rows among `0..n` that went in; together with the failures they
      account for every row exactly once. */
  function Successes(rows: seq<Row>, fates: seq<Fate>, n: nat, clock: nat -> string): (k: nat)
    requires |fates| == |rows| && n <= |rows|
    ensures k + |Failures(rows, fates, n, clock)| == n
  {
    if n == 0 then 0
    else Successes(rows, fates, n - 1, clock) + (if fates[n - 1].Inserted? then 1 else 0)
  }

  /** The inserts rows `0..n` make: one for each row whose fate reaches the
      sink, carrying its record, in row order. */
  function Inserts(fates: seq<Fate>, n: nat): (r: seq<Effect>)
    requires n <= |fates|
    ensures |r| <= n
    ensures forall j :: 0 <= j < |r| ==> r[j].Insert? && r[j].index < n
  {
    if n == 0 then []
    else Inserts(fates, n - 1) + (if CallsSink(fates[n - 1]) then [Insert(n - 1, fates[n - 1].record)] else [])
  }

  /** Inserts are in strictly increasing row order: no row reaches the sink
      twice and none overtakes an earlier one. */
  lemma {:induction false} InsertsOrdered(fates: seq<Fate>, n: nat)
    requires n <= |fates|
    ensures forall j, k :: 0 <= j < k < |Inserts(fates, n)| ==>
      Inserts(fates, n)[j].index < Inserts(fates, n)[k].index
  {
    if n > 0 {
      InsertsOrdered(fates, n - 1);
      var prev := Inserts(fates, n - 1);
      if CallsSink(fates[n - 1]) {
        var r := prev + [Insert(n - 1, fates[n - 1].record)];
        assert Inserts(fates, n) == r;
        forall j, k | 0 <= j < k < |r| ensures r[j].index < r[k].index {
          assert r[j] == prev[j];
          if k < |prev| {
            assert r[k] == prev[k];
          }
        }
      }
    }
  }

  /** Each insert is for a row whose fate reaches the sink, with its record. */
  lemma {:induction false} InsertsMatchFates(fates: seq<Fate>, n: nat)
    requires n <= |fates|
    ensures forall j :: 0 <= j < |Inserts(fates, n)| ==>
      && CallsSink(fates[Inserts(fates, n)[j].index])
      && Inserts(fates, n)[j].record == fates[Inserts(fates, n)[j].index].record
  {
    if n > 0 {
      InsertsMatchFates(fates, n - 1);
      var prev := Inserts(fates, n - 1);
      if CallsSink(fates[n - 1]) {
        var r := prev + [Insert(n - 1, fates[n - 1].record)];
        assert Inserts(fates, n) == r;
        forall j | 0 <= j < |r|
          ensures CallsSink(fates[r[j].index]) && r[j].record == fates[r[j].index].record
        {
          if j < |prev| {
            assert r[j] == prev[j];
          }
        }
      }
    }
  }

  /** Each row among `0..n` whose fate reaches the sink has its insert. */
  lemma {:induction false} InsertsCover(fates: seq<Fate>, n: nat, i: nat)
    requires i < n <= |fates| && CallsSink(fates[i])
    ensures exists j :: 0 <= j < |Inserts(fates, n)| && Inserts(fates, n)[j].index == i
  {
    var prev := Inserts(fates, n - 1);
    if i == n - 1 {
      var r := prev + [Insert(n - 1, fates[n - 1].record)];
      assert Inserts(fates, n) == r;
      assert r[|prev|].index == i;
    } else {
      InsertsCover(fates, n - 1, i);
      var j :| 0 <= j < |prev| && prev[j].index == i;
      var r := Inserts(fates, n);
      assert r[j] == prev[j];
    }
  }

  /** The loop's variables after rows `0..n`, had it not stopped. */
  function SpecState(rows: seq<Row>, fates: seq<Fate>, n: nat, pending: seq<FailedRecord>, clock: nat -> string): LoopState
    requires |fates| == |rows| && n <= |rows|
  {
    LoopState(
      Successes(rows, fates, n, clock), |Failures(rows, fates, n, clock)|,
      pending + Failures(rows, fates, n, clock), n > 0, Inserts(fates, n))
  }

  /** One pass of the loop body moves the described state on by one row. */
  lemma AdvanceFollowsFate(rows: seq<Row>, fates: seq<Fate>, n: nat, pending: seq<FailedRecord>, clock: nat -> string)
    requires |fates| == |rows| && n < |rows|
    requires n > 0 || !fates[0].Unprepared?
    ensures Advance(SpecState(rows, fates, n, pending, clock), n, rows[n], fates[n], clock)
         == Success(SpecState(rows, fates, n + 1, pending, clock))
  {
    var fate := fates[n];
    var before := SpecState(rows, fates, n, pending, clock);
    var after := SpecState(rows, fates, n + 1, pending, clock);
    var entry := if fate.Inserted? then [] else [FailedEntry(rows[n], FailureMessage(fate), clock(n))];
    assert Failures(rows, fates, n + 1, clock) == Failures(rows, fates, n, clock) + entry;
    assert after.failedRecords == before.failedRecords + entry;
  }

  /** From any row after the first, the loop runs to the end as described. */
  lemma {:induction false} LoopFollowsFates(rows: seq<Row>, n: nat, pending: seq<FailedRecord>, env: Env)
    requires 0 < n <= |rows|
    ensures Loop(rows, n, SpecState(rows, FatesOf(rows, env), n, pending, env.clock), env)
         == LoopEnd(SpecState(rows, FatesOf(rows, env), |rows|, pending, env.clock), None)
    decreases |rows| - n
  {
    if n < |rows| {
      FateAt(rows, env, n);
      AdvanceFollowsFate(rows, FatesOf(rows, env), n, pending, env.clock);
      LoopFollowsFates(rows, n + 1, pending, env);
    }
  }

  /** The run, row by row: it escapes exactly when the first row's record
      cannot be built; otherwise its counters, failure list and inserts are
      those the rows' fates describe, and the flush comes last. */
  lemma ImportFollowsFates(rows: seq<Row>, pending: seq<FailedRecord>, env: Env, stamp: string)
    ensures var run := ImportSongs(rows, pending, env, stamp);
      var fates := FatesOf(rows, env);
      var n := Processed(fates);
      && (run.escaped.Some? <==> EscapesAtFirstRow(fates))
      && (run.escaped.Some? ==> run.escaped.value == UnboundSongData(0, fates[0].message))
      && run.successful == Successes(rows, fates, n, env.clock)
      && run.failed == |Failures(rows, fates, n, env.clock)|
      && run.failedRecords == pending + Failures(rows, fates, n, env.clock)
      && run.effects == Inserts(fates, n) + [Flush(SaveFailedRecords(run.failedRecords, stamp))]
  {
    var fates := FatesOf(rows, env);
    assert pending + [] == pending;
    assert LoopState(0, 0, pending, false, []) == SpecState(rows, fates, 0, pending, env.clock);
    if |rows| > 0 {
      FateAt(rows, env, 0);
    }
    if |rows| > 0 && !EscapesAtFirstRow(fates) {
      AdvanceFollowsFate(rows, fates, 0, pending, env.clock);
      LoopFollowsFates(rows, 1, pending, env);
    }
  }

  /** A first row whose record cannot be built ends the run at once: the
      exception escapes carrying that row's `KeyError`, the row is neither
      counted nor added to the failure list, nothing reaches the sink, and the
      flush still runs over the failures already pending. */
  lemma FirstRowEscape(rows: seq<Row>, pending: seq<FailedRecord>, env: Env, stamp: string)
    requires |rows| > 0 && PrepareSongData(rows[0], env.showFloat).Failure?
    ensures var run := ImportSongs(rows, pending, env, stamp);
      && run.escaped == Some(UnboundSongData(0, PrepareSongData(rows[0], env.showFloat).error))
      && run.successful == 0 && run.failed == 0
      && run.failedRecords == pending
      && run.effects == [Flush(SaveFailedRecords(pending, stamp))]
  {
    ImportFollowsFates(rows, pending, env, stamp);
  }

  /** A source file lacking one of the seventeen columns lacks it in every
      row: every row would fail the same way, and the run stops at the first
      one with that column's `KeyError` and no insert. */
  lemma MissingColumnStopsRun(rows: seq<Row>, field: string, pending: seq<FailedRecord>, env: Env, stamp: string)
    requires |rows| > 0
    requires forall i :: 0 <= i < |rows| ==> rows[i].Keys == rows[0].Keys
    requires IsSongField(field) && field !in rows[0]
    ensures forall i :: 0 <= i < |rows| ==>
      PrepareSongData(rows[i], env.showFloat) == PrepareSongData(rows[0], env.showFloat)
    ensures var run := ImportSongs(rows, pending, env, stamp);
      && run.escaped == Some(UnboundSongData(0, KeyErrorMessage(SongFields[FirstMissing(rows[0].Keys, SongFields, 0)])))
      && run.effects == [Flush(SaveFailedRecords(pending, stamp))]
  {
    FirstRowEscape(rows, pending, env, stamp);
  }

  /** Every row of a completed run is counted exactly once, and the failure
      list gains exactly one entry per failed row. */
  lemma EveryRowCountedOnce(rows: seq<Row>, pending: seq<FailedRecord>, env: Env, stamp: string)
    ensures var run := ImportSongs(rows, pending, env, stamp);
      && run.successful + run.failed == Processed(FatesOf(rows, env))
      && |run.failedRecords| == |pending| + run.failed
  {
    ImportFollowsFates(rows, pending, env, stamp);
  }

  /** The sink is called at most once per row, in row order, never again for
      the same row: exactly for the processed rows whose record was built and
      has a title, with that record. */
  lemma SinkCallsInRowOrder(rows: seq<Row>, pending: seq<FailedRecord>, env: Env, stamp: string)
    ensures var run := ImportSongs(rows, pending, env, stamp);
      var calls := run.effects[..|run.effects| - 1];
      var n := Processed(FatesOf(rows, env));
      && (forall j :: 0 <= j < |calls| ==> calls[j].Insert? && calls[j].index < n)
      && (forall j, k :: 0 <= j < k < |calls| ==> calls[j].index < calls[k].index)
      && (forall j :: 0 <= j < |calls| ==>
            PrepareSongData(rows[calls[j].index], env.showFloat) == Success(calls[j].record)
            && Title in calls[j].record)
      && (forall i :: 0 <= i < n ==>
            (PrepareSongData(rows[i], env.showFloat).Success?
             && Title in PrepareSongData(rows[i], env.showFloat).value) ==>
            exists j :: 0 <= j < |calls| && calls[j].index == i)
  {
    ImportFollowsFates(rows, pending, env, stamp);
    var fates := FatesOf(rows, env);
    var n := Processed(fates);
    var run := ImportSongs(rows, pending, env, stamp);
    var calls := run.effects[..|run.effects| - 1];
    assert calls == Inserts(fates, n);
    InsertsOrdered(fates, n);
    InsertsMatchFates(fates, n);
    forall j | 0 <= j < |calls|
      ensures PrepareSongData(rows[calls[j].index], env.showFloat) == Success(calls[j].record)
              && Title in calls[j].record
    {
      FateAt(rows, env, calls[j].index);
    }
    forall i | 0 <= i < n
      ensures (PrepareSongData(rows[i], env.showFloat).Success?
               && Title in PrepareSongData(rows[i], env.showFloat).value) ==>
              exists j :: 0 <= j < |calls| && calls[j].index == i
    {
      FateAt(rows, env, i);
      if CallsSink(fates[i]) {
        InsertsCover(fates, n, i);
      }
    }
  }

  /** A row that is among the first `n` and did not go in has its entry in
      the failure list. */
  lemma {:induction false} FailedRowRecorded(rows: seq<Row>, fates: seq<Fate>, n: nat, i: nat, clock: nat -> string)
    requires |fates| == |rows| && i < n <= |rows|
    requires !fates[i].Inserted?
    ensures FailedEntry(rows[i], FailureMessage(fates[i]), clock(i)) in Failures(rows, fates, n, clock)
  {
    if i < n - 1 {
      FailedRowRecorded(rows, fates, n - 1, i, clock);
    }
  }

  /** A processed row whose record has no `title` is never sent to the sink;
      it fails with the `KeyError` for `title` and is recorded. */
  lemma UntitledRowNeverInserted(rows: seq<Row>, i: nat, pending: seq<FailedRecord>, env: Env, stamp: string)
    requires i < |rows|
    requires PrepareSongData(rows[i], env.showFloat).Success?
    requires Title !in PrepareSongData(rows[i], env.showFloat).value
    ensures var run := ImportSongs(rows, pending, env, stamp);
      && (forall j :: 0 <= j < |run.effects| && run.effects[j].Insert? ==> run.effects[j].index != i)
      && (run.escaped.None? ==> FailedEntry(rows[i], KeyErrorMessage(Title), env.clock(i)) in run.failedRecords)
  {
    ImportFollowsFates(rows, pending, env, stamp);
    var fates := FatesOf(rows, env);
    var n := Processed(fates);
    FateAt(rows, env, i);
    assert fates[i].Untitled?;
    InsertsMatchFates(fates, n);
    var run := ImportSongs(rows, pending, env, stamp);
    var calls := Inserts(fates, n);
    forall j | 0 <= j < |run.effects| && run.effects[j].Insert?
      ensures run.effects[j].index != i
    {
      assert j < |calls| && run.effects[j] == calls[j];
    }
    if !EscapesAtFirstRow(fates) {
      FailedRowRecorded(rows, fates, |rows|, i, env.clock);
    }
  }

  /** In a run whose first record can be built, so that it completes, a row
      that did not go in and whose `album_date` holds a date leaves a dated
      entry in the failure list (`row.to_dict()` keeps the
      cell), so `save_failed_records` as written raises `TypeError` after the
      CSV file is written. */
  lemma DatedFailureBreaksJson(rows: seq<Row>, i: nat, pending: seq<FailedRecord>, env: Env, stamp: string)
    requires i < |rows|
    requires !FateOf(rows[i], i, env).Inserted?
    requires AlbumDate in rows[i] && rows[i][AlbumDate].Date?
    requires PrepareSongData(rows[0], env.showFloat).Success?
    ensures SaveFailedRecordsAsWritten(ImportSongs(rows, pending, env, stamp).failedRecords, stamp).JsonTypeError?
  {
    var run := ImportSongs(rows, pending, env, stamp);
    var entry := DatedFailedEntry(rows, i, pending, env, stamp);
    var j :| 0 <= j < |run.failedRecords| && run.failedRecords[j] == entry;
    assert HoldsDate(run.failedRecords[j]) by {
      assert entry[AlbumDate].Date?;
    }
  }

  /** The same row under the flush the model uses: both files are written,
      and the row's entry, date included, is among the saved records. */
  lemma DatedFailureSaved(rows: seq<Row>, i: nat, pending: seq<FailedRecord>, env: Env, stamp: string)
    requires i < |rows|
    requires !FateOf(rows[i], i, env).Inserted?
    requires AlbumDate in rows[i] && rows[i][AlbumDate].Date?
    requires PrepareSongData(rows[0], env.showFloat).Success?
    ensures var run := ImportSongs(rows, pending, env, stamp);
      && run.effects[|run.effects| - 1]
         == Flush(WriteFiles(
              FailureDir + "/failed_records_" + stamp + ".csv",
              FailureDir + "/failed_records_" + stamp + ".json",
              run.failedRecords))
      && exists r :: r in run.failedRecords && AlbumDate in r && r[AlbumDate] == rows[i][AlbumDate]
  {
    var run := ImportSongs(rows, pending, env, stamp);
    var entry := DatedFailedEntry(rows, i, pending, env, stamp);
    assert entry in run.failedRecords && entry[AlbumDate] == rows[i][AlbumDate];
    var a := SaveFailedRecords(run.failedRecords, stamp);
    assert a.WriteFiles?;
    assert run.effects[|run.effects| - 1] == Flush(a);
  }

  /** The failure entry of such a row, found in the failure list of a run
      that completes because its first record can be built. */
  lemma DatedFailedEntry(rows: seq<Row>, i: nat, pending: seq<FailedRecord>, env: Env, stamp: string)
      returns (entry: FailedRecord)
    requires i < |rows|
    requires !FateOf(rows[i], i, env).Inserted?
    requires AlbumDate in rows[i]
    requires PrepareSongData(rows[0], env.showFloat).Success?
    ensures entry in ImportSongs(rows, pending, env, stamp).failedRecords
    ensures AlbumDate in entry && entry[AlbumDate] == rows[i][AlbumDate]
  {
    var fates := FatesOf(rows, env);
    ImportFollowsFates(rows, pending, env, stamp);
    FateAt(rows, env, 0);
    FateAt(rows, env, i);
    assert !EscapesAtFirstRow(fates);
    FailedRowRecorded(rows, fates, |rows|, i, env.clock);
    entry := FailedEntry(rows[i], FailureMessage(fates[i]), env.clock(i));
  }

  /** Rows that all build titled records and that the sink takes, except one
      it rejects. */
  predicate OnlyRowRejected(rows: seq<Row>, k: nat, message: string, env: Env)
  {
    && k < |rows|
    && (forall i :: 0 <= i < |rows| ==>
          PrepareSongData(rows[i], env.showFloat).Success?
          && Title in PrepareSongData(rows[i], env.showFloat).value)
    && (forall i :: 0 <= i < |rows| ==>
          env.sink(i, PrepareSongData(rows[i], env.showFloat).value)
          == if i == k then Rejected(message) else Accepted)
  }

  /** The failure list of rows `0..n` when row `k` alone did not go in,
      refused by the sink with `message`. */
  lemma {:induction false} OneRejectionCounts(rows: seq<Row>, fates: seq<Fate>, k: nat, message: string, n: nat, clock: nat -> string)
    requires |fates| == |rows| && k < |rows| && n <= |rows|
    requires forall i :: 0 <= i < |rows| && i != k ==> fates[i].Inserted?
    requires fates[k].Refused? && fates[k].message == message
    ensures Failures(rows, fates, n, clock)
         == if n > k then [FailedEntry(rows[k], message, clock(k))] else []
  {
    if n > 0 {
      OneRejectionCounts(rows, fates, k, message, n - 1, clock);
      var prev := Failures(rows, fates, n - 1, clock);
      if n - 1 == k {
        assert prev == [];
        assert FailureMessage(fates[k]) == message;
        assert Failures(rows, fates, n, clock) == prev + [FailedEntry(rows[k], message, clock(k))];
      } else {
        assert fates[n - 1].Inserted?;
        assert Failures(rows, fates, n, clock) == prev + [];
      }
    }
  }

  /** Row isolation: when the sink rejects one row only, the run still
      processes every row, reports one failure and all other rows as
      successes, and its failure list holds exactly that row's raw data with
      the sink's message, which the flush then writes. */
  lemma RowIsolation(rows: seq<Row>, k: nat, message: string, env: Env, stamp: string)
    requires OnlyRowRejected(rows, k, message, env)
    ensures var run := ImportSongs(rows, [], env, stamp);
      && run.escaped.None?
      && run.successful == |rows| - 1 && run.failed == 1
      && run.failedRecords == [FailedEntry(rows[k], message, env.clock(k))]
      && run.effects[|run.effects| - 1]
         == Flush(WriteFiles(
              FailureDir + "/failed_records_" + stamp + ".csv",
              FailureDir + "/failed_records_" + stamp + ".json",
              run.failedRecords))
  {
    var fates := FatesOf(rows, env);
    forall i | 0 <= i < |rows|
      ensures i != k ==> fates[i].Inserted?
      ensures i == k ==> fates[i].Refused? && fates[i].message == message
    {
      FateAt(rows, env, i);
    }
    ImportFollowsFates(rows, [], env, stamp);
    OneRejectionCounts(rows, fates, k, message, |rows|, env.clock);
  }

  /** Rows that all build titled records, all taken by the sink. */
  predicate AllAccepted(rows: seq<Row>, env: Env)
  {
    forall i :: 0 <= i < |rows| ==>
      && PrepareSongData(rows[i], env.showFloat).Success?
      && Title in PrepareSongData(rows[i], env.showFloat).value
      && env.sink(i, PrepareSongData(rows[i], env.showFloat).value) == Accepted
  }

  /** Rows that all went in leave no failure entry. */
  lemma {:induction false} NoFailures(rows: seq<Row>, fates: seq<Fate>, n: nat, clock: nat -> string)
    requires |fates| == |rows| && n <= |rows|
    requires forall i :: 0 <= i < |rows| ==> fates[i].Inserted?
    ensures Failures(rows, fates, n, clock) == []
  {
    if n > 0 {
      NoFailures(rows, fates, n - 1, clock);
    }
  }

  /** When every row goes in, a fresh importer counts them all as successes
      and its flush writes nothing. */
  lemma AllAcceptedNothingToSave(rows: seq<Row>, env: Env, stamp: string)
    requires AllAccepted(rows, env)
    ensures var run := ImportSongs(rows, [], env, stamp);
      && run.escaped.None?
      && run.successful == |rows| && run.failed == 0
      && run.effects[|run.effects| - 1] == Flush(NothingToSave)
  {
    var fates := FatesOf(rows, env);
    forall i | 0 <= i < |rows| ensures fates[i].Inserted? {
      FateAt(rows, env, i);
    }
    ImportFollowsFates(rows, [], env, stamp);
    NoFailures(rows, fates, |rows|, env.clock);
  }
}
