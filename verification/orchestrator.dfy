/** Loading one file inside one transaction (`load_csv_to_postgres`), the run over the
    directory and its summary (`main`). */
module Orchestrator {
  import opened Wrappers
  import opened Seqs
  import opened Data
  import opened Database
  import opened Schema
  import opened Loader
  import opened TableNames
  import opened Listing

  /** `'status': 'success'` with the row and column counts, or `'status': 'failed'` with `str(e)`. */
  datatype Status = Succeeded(rows: nat, columns: nat) | Failed(error: string)

  /** The dictionary returned for one file. */
  datatype LoadResult = LoadResult(filename: string, tableName: string, status: Status)

  /** The result for one file together with what was sent over the connection for it. */
  datatype FileLoad = FileLoad(result: LoadResult, events: seq<Event>)

  /** The `execute`/`executemany` calls for a parsed file, in order: the two statements of
      `create_table`, then one `executemany` per batch of `insert_data`. */
  function Calls(table: string, d: Dataset): (calls: seq<Event>)
    ensures |calls| >= 2
    ensures calls[0] == Execute(DropTable(table))
    ensures calls[1] == Execute(CreateTable(table, ColumnDefs(d.columns)))
    ensures calls[2..] == InsertData(table, d).events
    ensures forall k :: 0 <= k < |calls| ==> !IsTerminal(calls[k])
  {
    var batches := InsertData(table, d).events;
    assert forall k :: 0 <= k < |batches| ==> batches[k].ExecuteMany?;
    var head := [Execute(DropTable(table)), Execute(CreateTable(table, ColumnDefs(d.columns)))];
    DropPrefix(head, batches);
    head + batches
  }

  /** The first two calls are the statements `create_table` provisions the table with. */
  lemma CallsProvision(table: string, d: Dataset)
    ensures var provision := ProvisionStatements(table, d.columns);
      Calls(table, d)[..2] == [Execute(provision[0]), Execute(provision[1])]
  {
    var calls := Calls(table, d);
    PairDisplay(calls[..2]);
  }

  /** What one transaction sent and how it ended: `None` after a commit, the error message
      after a rollback. */
  datatype Transaction = Transaction(events: seq<Event>, error: Option<string>)

  /** The `try`/`except` of `load_csv_to_postgres` around `calls`: the first call that raises
      ends the attempt and is followed by a rollback; if none raises, the commit follows
      them all. */
  function Transact(calls: seq<Event>, failure: Option<DbFailure>): (t: Transaction)
    requires forall k :: 0 <= k < |calls| ==> !IsTerminal(calls[k])
    ensures |t.events| > 0 && IsTerminal(t.events[|t.events| - 1])
    ensures forall k :: 0 <= k < |t.events| - 1 ==> !IsTerminal(t.events[k])
    ensures t.error.None? <==> t.events[|t.events| - 1] == Commit
    ensures t.error.None? ==> t.events == calls + [Commit]
    ensures failure.Some? && failure.value.call < |calls| ==> t.error == Some(failure.value.message)
    ensures t.error.Some? ==>
      && failure.Some? && failure.value.call < |calls|
      && t.error.value == failure.value.message
      && t.events == calls[..failure.value.call + 1] + [Rollback]
  {
    if failure.Some? && failure.value.call < |calls| then
      Transaction(calls[..failure.value.call + 1] + [Rollback], Some(failure.value.message))
    else
      Transaction(calls + [Commit], None)
  }

  /** A trace with no commit or rollback in it. */
  lemma {:induction false} NoTerminalCounts(events: seq<Event>)
    requires forall k :: 0 <= k < |events| ==> !IsTerminal(events[k])
    ensures CountTerminal(events) == 0
    ensures CountEvent(events, Commit) == 0 && CountEvent(events, Rollback) == 0
  {
    if events != [] {
      NoTerminalCounts(events[1..]);
    }
  }

  /** A trace whose only commit or rollback is its last event. */
  lemma EndsOnce(events: seq<Event>)
    requires |events| > 0 && IsTerminal(events[|events| - 1])
    requires forall k :: 0 <= k < |events| - 1 ==> !IsTerminal(events[k])
    ensures CountTerminal(events) == 1
    ensures CountEvent(events, Commit) == (if events[|events| - 1] == Commit then 1 else 0)
    ensures CountEvent(events, Rollback) == (if events[|events| - 1] == Commit then 0 else 1)
  {
    var n := |events| - 1;
    NoTerminalCounts(events[..n]);
    CountsAppend(events[..n], [events[n]]);
    assert events == events[..n] + [events[n]];
  }

  /** `load_csv_to_postgres` for one file. A parse error raises before any statement is
      sent; otherwise the drop, create and insert calls run inside `Transact`. Either way
      the file gets exactly one result, `failed` with the error or `success` with the
      inserted row count and the column count. */
  function LoadCsv(file: CsvFile): (load: FileLoad)
    ensures load.result.filename == file.name && load.result.tableName == TableName(file.name)
    ensures |load.events| > 0 && IsTerminal(load.events[|load.events| - 1])
    ensures forall k :: 0 <= k < |load.events| - 1 ==> !IsTerminal(load.events[k])
    ensures load.result.status.Succeeded? <==> load.events[|load.events| - 1] == Commit
    ensures file.parsed.Err? ==>
      load.events == [Rollback] && load.result.status == Failed(file.parsed.error)
    ensures file.parsed.Ok? ==>
      (load.result.status.Failed? <==>
        file.dbFailure.Some? && file.dbFailure.value.call < |Calls(TableName(file.name), file.parsed.value)|)
  {
    var table := TableName(file.name);
    match file.parsed
    case Err(message) =>
      FileLoad(LoadResult(file.name, table, Failed(message)), [Rollback])
    case Ok(d) =>
      var t := Transact(Calls(table, d), file.dbFailure);
      if t.error.Some? then
        FileLoad(LoadResult(file.name, table, Failed(t.error.value)), t.events)
      else
        FileLoad(LoadResult(file.name, table, Succeeded(InsertData(table, d).inserted, |d.columns|)), t.events)
  }

  /** A committed file reports every row of a non-empty dataset (none for an empty one)
      and its original column count, and its trace is the whole drop, create and insert
      sequence. */
  lemma SucceededCounts(file: CsvFile)
    requires LoadCsv(file).result.status.Succeeded?
    ensures file.parsed.Ok?
    ensures var d := file.parsed.value;
      && LoadCsv(file).result.status.rows == (if IsEmpty(d) then 0 else |d.rows|)
      && LoadCsv(file).result.status.columns == |d.columns|
    ensures LoadCsv(file).events == Calls(TableName(file.name), file.parsed.value) + [Commit]
  {
  }

  /** Once committed, every row of the file went out, null-filled and in order. */
  lemma SucceededSendsEveryRow(file: CsvFile)
    requires LoadCsv(file).result.status.Succeeded?
    ensures var d := file.parsed.value;
      var sent := Flatten(AllRowsSent(LoadCsv(file).events[2..|LoadCsv(file).events| - 1]));
      sent == (if IsEmpty(d) then [] else NullFilled(d.rows))
  {
    var d := file.parsed.value;
    var load := LoadCsv(file);
    SucceededCounts(file);
    var calls := Calls(TableName(file.name), d);
    assert load.events[2..|load.events| - 1] == calls[2..];
    assert calls[2..] == InsertData(TableName(file.name), d).events;
  }

  /** A parsed file that failed was stopped by the database at the call its failure names:
      that call and those before it were sent, nothing after it. */
  lemma FailedStopsAtFailingCall(file: CsvFile)
    requires file.parsed.Ok? && LoadCsv(file).result.status.Failed?
    ensures file.dbFailure.Some?
    ensures LoadCsv(file).result.status.error == file.dbFailure.value.message
    ensures var calls := Calls(TableName(file.name), file.parsed.value);
      && file.dbFailure.value.call < |calls|
      && LoadCsv(file).events == calls[..file.dbFailure.value.call + 1] + [Rollback]
  {
    var calls := Calls(TableName(file.name), file.parsed.value);
    var t := Transact(calls, file.dbFailure);
    assert LoadCsv(file).events == t.events && t.error.Some?;
  }

  /** Exactly one commit or rollback per file: a commit when it succeeded, a rollback when
      it failed. */
  lemma OneTerminalPerFile(file: CsvFile)
    ensures CountTerminal(LoadCsv(file).events) == 1
    ensures CountEvent(LoadCsv(file).events, Commit) == (if LoadCsv(file).result.status.Succeeded? then 1 else 0)
    ensures CountEvent(LoadCsv(file).events, Rollback) == (if LoadCsv(file).result.status.Failed? then 1 else 0)
  {
    EndsOnce(LoadCsv(file).events);
  }

  /** The results and the trace of the loop over the files. */
  datatype Progress = Progress(results: seq<LoadResult>, events: seq<Event>)

  /** `for csv_file in csv_files: results.append(load_csv_to_postgres(...))`. */
  function LoadAll(files: seq<CsvFile>): (out: Progress)
    ensures |out.results| == |files|
    ensures forall k :: 0 <= k < |files| ==> out.results[k] == LoadCsv(files[k]).result
    ensures out.events == Flatten(FileTraces(files))
  {
    if files == [] then Progress([], [])
    else
      var first := LoadCsv(files[0]);
      var rest := LoadAll(files[1..]);
      MapCons(TraceOf, files);
      FlattenCons(first.events, FileTraces(files[1..]));
      Progress([first.result] + rest.results, first.events + rest.events)
  }

  /** What is sent over the connection for one file. */
  function TraceOf(file: CsvFile): seq<Event> {
    LoadCsv(file).events
  }

  /** Each file's own trace, in file order. */
  function FileTraces(files: seq<CsvFile>): seq<seq<Event>> {
    Map(TraceOf, files)
  }

  /** `[r for r in results if r['status'] == 'success']`. */
  function Successes(results: seq<LoadResult>): (successful: seq<LoadResult>)
    ensures forall r :: r in successful <==> r in results && r.status.Succeeded?
    ensures |successful| <= |results|
  {
    if results == [] then []
    else (if results[0].status.Succeeded? then [results[0]] else []) + Successes(results[1..])
  }

  /** `[r for r in results if r['status'] == 'failed']`. */
  function Failures(results: seq<LoadResult>): (failed: seq<LoadResult>)
    ensures forall r :: r in failed <==> r in results && r.status.Failed?
    ensures |failed| <= |results|
  {
    if results == [] then []
    else (if results[0].status.Failed? then [results[0]] else []) + Failures(results[1..])
  }

  /** Every result is either a success or a failure, and none is lost. */
  lemma {:induction false} Partition(results: seq<LoadResult>)
    ensures |Successes(results)| + |Failures(results)| == |results|
    ensures multiset(Successes(results)) + multiset(Failures(results)) == multiset(results)
  {
    if results != [] {
      Partition(results[1..]);
      assert results == [results[0]] + results[1..];
    }
  }

  /** One commit or rollback per file; the commits are the successes and the rollbacks the
      failures. */
  lemma {:induction false} TraceMatchesResults(files: seq<CsvFile>)
    ensures CountTerminal(LoadAll(files).events) == |files|
    ensures CountEvent(LoadAll(files).events, Commit) == |Successes(LoadAll(files).results)|
    ensures CountEvent(LoadAll(files).events, Rollback) == |Failures(LoadAll(files).results)|
  {
    if files != [] {
      TraceMatchesResults(files[1..]);
      OneTerminalPerFile(files[0]);
      CountsAppend(LoadCsv(files[0]).events, LoadAll(files[1..]).events);
      var results := LoadAll(files).results;
      assert results[1..] == LoadAll(files[1..]).results;
    }
  }

  /** Both filters keep the order of the results: filtering a concatenation filters each
      part. */
  lemma {:induction false} SuccessesAppend(a: seq<LoadResult>, b: seq<LoadResult>)
    ensures Successes(a + b) == Successes(a) + Successes(b)
    decreases |a|
  {
    if a == [] {
      assert a + b == b;
    } else {
      ConcatFront(a, b);
      SuccessesAppend(a[1..], b);
      var head := if a[0].status.Succeeded? then [a[0]] else [];
      calc {
        Successes(a + b);
        head + Successes(a[1..] + b);
        head + (Successes(a[1..]) + Successes(b));
        (head + Successes(a[1..])) + Successes(b);
        Successes(a) + Successes(b);
      }
    }
  }

  lemma {:induction false} FailuresAppend(a: seq<LoadResult>, b: seq<LoadResult>)
    ensures Failures(a + b) == Failures(a) + Failures(b)
    decreases |a|
  {
    if a == [] {
      assert a + b == b;
    } else {
      ConcatFront(a, b);
      FailuresAppend(a[1..], b);
      var head := if a[0].status.Failed? then [a[0]] else [];
      calc {
        Failures(a + b);
        head + Failures(a[1..] + b);
        head + (Failures(a[1..]) + Failures(b));
        (head + Failures(a[1..])) + Failures(b);
        Failures(a) + Failures(b);
      }
    }
  }

  /** The rows a result contributes to the total: its row count if it succeeded. */
  function RowsOf(r: LoadResult): nat {
    if r.status.Succeeded? then r.status.rows else 0
  }

  /** `sum(r['rows'] for r in successful)`: failed results add nothing, and every success
      adds its row count. */
  function TotalRows(results: seq<LoadResult>): (total: nat)
    ensures (forall k :: 0 <= k < |results| ==> results[k].status.Failed?) ==> total == 0
    ensures forall k :: 0 <= k < |results| ==> RowsOf(results[k]) <= total
  {
    if results == [] then 0
    else RowsOf(results[0]) + TotalRows(results[1..])
  }

  /** The total is additive over concatenation. */
  lemma {:induction false} TotalRowsAppend(a: seq<LoadResult>, b: seq<LoadResult>)
    ensures TotalRows(a + b) == TotalRows(a) + TotalRows(b)
    decreases |a|
  {
    if a == [] {
      assert a + b == b;
    } else {
      ConcatFront(a, b);
      TotalRowsAppend(a[1..], b);
    }
  }

  /** Summing over the successes alone gives the same total as over all results. */
  lemma {:induction false} TotalRowsOfSuccesses(results: seq<LoadResult>)
    ensures TotalRows(Successes(results)) == TotalRows(results)
  {
    if results != [] {
      TotalRowsOfSuccesses(results[1..]);
      var head := if results[0].status.Succeeded? then [results[0]] else [];
      TotalRowsAppend(head, Successes(results[1..]));
      if head != [] {
        assert TotalRows(head) == RowsOf(results[0]) + TotalRows([]);
      }
    }
  }

  /** The end-of-run summary. */
  datatype Summary = Summary(successful: seq<LoadResult>, failed: seq<LoadResult>, totalRows: nat)

  function Summarize(results: seq<LoadResult>): (summary: Summary)
    ensures forall r :: r in summary.successful <==> r in results && r.status.Succeeded?
    ensures forall r :: r in summary.failed <==> r in results && r.status.Failed?
    ensures |summary.successful| + |summary.failed| == |results|
    ensures multiset(summary.successful) + multiset(summary.failed) == multiset(results)
    ensures summary.totalRows == TotalRows(results)
  {
    Partition(results);
    TotalRowsOfSuccesses(results);
    Summary(Successes(results), Failures(results), TotalRows(Successes(results)))
  }

  /** How `main` ends. */
  datatype Outcome =
    | DirectoryMissing
    | NoCsvFiles
    | ConnectionFailed(error: string)
    | Completed(results: seq<LoadResult>, events: seq<Event>, summary: Summary)

  /** `main` after the password prompt: `directory` is the listing of the CSV directory, or
      `None` when it does not exist; `connectError` is the error `psycopg2.connect` raises,
      if any. */
  function Run(directory: Option<seq<CsvFile>>, connectError: Option<string>): (out: Outcome)
    ensures out.DirectoryMissing? <==> directory.None?
    ensures out.NoCsvFiles? <==> directory.Some? && forall e :: e in directory.value ==> !IsCsvName(e.name)
    ensures out.ConnectionFailed? ==> connectError.Some?
    ensures directory.Some? && (exists e :: e in directory.value && IsCsvName(e.name)) ==>
      (out.ConnectionFailed? <==> connectError.Some?)
    ensures out.Completed? ==>
      && directory.Some?
      && var files := Sort(Glob(directory.value));
      && |out.results| == |files| > 0
      && out.events == Flatten(FileTraces(files))
      && (forall k :: 0 <= k < |files| ==> out.results[k] == LoadCsv(files[k]).result)
      && (forall k :: 0 <= k < |files| - 1 ==> NameLe(out.results[k].filename, out.results[k + 1].filename))
      && out.summary == Summarize(out.results)
      && CountTerminal(out.events) == |out.results|
      && CountEvent(out.events, Commit) == |out.summary.successful|
      && CountEvent(out.events, Rollback) == |out.summary.failed|
  {
    match directory
    case None => DirectoryMissing
    case Some(entries) =>
      var files := Sort(Glob(entries));
      if files == [] then
        NothingMatched(entries);
        NoCsvFiles
      else if connectError.Some? then
        SomethingMatched(entries);
        ConnectionFailed(connectError.value)
      else
        SomethingMatched(entries);
        var progress := LoadAll(files);
        TraceMatchesResults(files);
        ResultsInNameOrder(files);
        Completed(progress.results, progress.events, Summarize(progress.results))
  }

  lemma NothingMatched(entries: seq<CsvFile>)
    requires Sort(Glob(entries)) == []
    ensures forall e :: e in entries ==> !IsCsvName(e.name)
  {
    forall e | e in entries ensures !IsCsvName(e.name) {
      assert e in Glob(entries) ==> e in multiset(Sort(Glob(entries)));
    }
  }

  lemma SomethingMatched(entries: seq<CsvFile>)
    requires Sort(Glob(entries)) != []
    ensures exists e :: e in entries && IsCsvName(e.name)
  {
    var files := Sort(Glob(entries));
    assert files[0] in multiset(Glob(entries));
    assert files[0] in entries;
  }

  /** Results come out in the order of the sorted file names. */
  lemma ResultsInNameOrder(files: seq<CsvFile>)
    requires Sorted(files)
    ensures forall k :: 0 <= k < |files| - 1 ==>
      NameLe(LoadAll(files).results[k].filename, LoadAll(files).results[k + 1].filename)
  {
    forall k | 0 <= k < |files| - 1
      ensures NameLe(LoadAll(files).results[k].filename, LoadAll(files).results[k + 1].filename)
    {
      assert LoadAll(files).results[k].filename == files[k].name;
      assert LoadAll(files).results[k + 1].filename == files[k + 1].name;
    }
  }

  /** The process exit status: 1 for the three early exits, 0 once the loop has run,
      whatever the files' outcomes. */
  function ExitCode(out: Outcome): int {
    if out.Completed? then 0 else 1
  }

  /** `main` exits with status 1 exactly when the directory is missing, holds no `*.csv`
      entry, or the connection cannot be opened; the files' own outcomes never matter. */
  lemma ExitStatus(directory: Option<seq<CsvFile>>, connectError: Option<string>)
    ensures ExitCode(Run(directory, connectError)) == 1 <==>
      || directory.None?
      || (forall e :: e in directory.value ==> !IsCsvName(e.name))
      || connectError.Some?
    ensures ExitCode(Run(directory, connectError)) == 0 || ExitCode(Run(directory, connectError)) == 1
  {
  }
}
