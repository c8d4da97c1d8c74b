/**
  Row insertion (`insert_data`): an empty frame inserts nothing; otherwise the headers are
  sanitised and renamed again, missing cells become nulls, and the rows go to
  `executemany` in slices of at most 1000.
 */
module Loader {
  import opened Wrappers
  import opened Ascii
  import opened Seqs
  import opened Strings
  import opened Sanitizer
  import opened Data
  import opened Database
  import opened Schema

  /** Rows per `executemany` call (`batch_size`). */
  const BatchSize: nat := 1000

  /** `sanitized_columns` of `insert_data`: the insert column list, computed independently of
      `create_table`. */
  function InsertColumns(headers: seq<string>): (names: seq<string>)
    ensures |names| == |headers|
    ensures forall k :: 0 <= k < |headers| ==> names[k] == ColumnName(headers[k])
    ensures forall k :: 0 <= k < |names| ==> names[k] != SurrogateKey
  {
    var sanitized := SanitizeEach(headers);
    var hasId := exists k :: 0 <= k < |sanitized| && Lower(sanitized[k]) == SurrogateKey;
    if hasId then
      seq(|sanitized|, k requires 0 <= k < |sanitized| =>
        if Lower(sanitized[k]) == SurrogateKey then RenamedKey else sanitized[k])
    else sanitized
  }

  /** `placeholders`: `', '.join(['%s'] * n)`. */
  function Placeholders(n: nat): (text: string)
    ensures CountChar(text, '%') == n
  {
    PlaceholderCount(n);
    Join(seq(n, _ => "%s"), ", ")
  }

  lemma {:induction false} PlaceholderCount(n: nat)
    ensures CountChar(Join(seq(n, _ => "%s"), ", "), '%') == n
  {
    if n > 1 {
      var parts := seq(n, _ => "%s");
      assert parts[1..] == seq(n - 1, _ => "%s");
      PlaceholderCount(n - 1);
      assert Join(parts, ", ") == "%s" + ", " + Join(parts[1..], ", ");
      CountCharAppend("%s" + ", ", Join(parts[1..], ", "), '%');
      CountCharAppend("%s", ", ", '%');
    } else if n == 1 {
      assert seq(n, _ => "%s") == ["%s"];
    }
  }

  /** `insert_query`: the parameterised INSERT statement into `table`, naming the renamed columns
      and carrying one placeholder per header. */
  function InsertStatement(table: string, headers: seq<string>): (statement: Statement)
    ensures statement.InsertInto? && statement.table == table
    ensures statement.columns == InsertColumns(headers)
    ensures CountChar(statement.placeholders, '%') == |headers|
  {
    var columns := InsertColumns(headers);
    InsertInto(table, columns, Placeholders(|columns|))
  }

  /** `df_copy.where(pd.notnull(df_copy), None)`: a missing cell is sent as NULL, any other cell as its value. */
  function ToParam(c: Cell): (p: Option<Value>)
    ensures p.None? <==> c.Missing?
    ensures c.Present? ==> p == Some(c.value)
  {
    match c
    case Missing => None
    case Present(v) => Some(v)
  }

  /** The rows as parameter tuples: same shape, a null exactly where a cell is missing and
      the cell's value everywhere else. */
  function NullFilled(rows: seq<Row>): (params: seq<Params>)
    ensures |params| == |rows|
    ensures forall i :: 0 <= i < |rows| ==> |params[i]| == |rows[i]|
    ensures forall i, j :: 0 <= i < |rows| && 0 <= j < |rows[i]| ==>
      (params[i][j].None? <==> rows[i][j].Missing?) &&
      (rows[i][j].Present? ==> params[i][j] == Some(rows[i][j].value))
  {
    seq(|rows|, i requires 0 <= i < |rows| =>
      seq(|rows[i]|, j requires 0 <= j < |rows[i]| => ToParam(rows[i][j])))
  }

  function Min(a: int, b: int): int { if a <= b then a else b }

  /** The batching loop of `insert_data`: the slices `xs[i:i+1000]` for `i` in `range(start, len(xs), 1000)`. */
  function BatchesFrom<T>(xs: seq<T>, start: nat): (batches: seq<seq<T>>)
    ensures Flatten(batches) == xs[Min(start, |xs|)..]
    ensures forall k :: 0 <= k < |batches| ==> 0 < |batches[k]| <= BatchSize
    ensures forall k :: 0 <= k < |batches| - 1 ==> |batches[k]| == BatchSize
    ensures |batches| == if start >= |xs| then 0 else (|xs| - start + BatchSize - 1) / BatchSize
    decreases |xs| - start
  {
    if start >= |xs| then []
    else
      var batch := xs[start..Min(start + BatchSize, |xs|)];
      var rest := BatchesFrom(xs, start + BatchSize);
      assert xs[start..] == batch + xs[Min(start + BatchSize, |xs|)..];
      [batch] + rest
  }

  /** What `insert_data` returns and the `executemany` calls it makes. */
  datatype Insertion = Insertion(inserted: nat, events: seq<Event>)

  /** The parameter rows an event sends; none for anything but `executemany`. */
  function RowsSent(e: Event): seq<Params> {
    if e.ExecuteMany? then e.rows else []
  }

  /** The parameter rows of each event, in order. */
  function AllRowsSent(events: seq<Event>): seq<seq<Params>> {
    seq(|events|, k requires 0 <= k < |events| => RowsSent(events[k]))
  }

  /** `insert_data(cursor, table_name, df)`. */
  function InsertData(table: string, d: Dataset): (out: Insertion)
    ensures IsEmpty(d) ==> out == Insertion(0, [])
    ensures !IsEmpty(d) ==>
      && out.inserted == |d.rows|
      && |out.events| == (|d.rows| + BatchSize - 1) / BatchSize
      && (forall k :: 0 <= k < |out.events| ==>
            out.events[k].ExecuteMany? && out.events[k].statement == InsertStatement(table, Labels(d.columns)))
      && (forall k :: 0 <= k < |out.events| ==> 0 < |RowsSent(out.events[k])| <= BatchSize)
      && (forall k :: 0 <= k < |out.events| - 1 ==> |RowsSent(out.events[k])| == BatchSize)
      && Flatten(AllRowsSent(out.events)) == NullFilled(d.rows)
  {
    if IsEmpty(d) then Insertion(0, [])
    else
      var statement := InsertStatement(table, Labels(d.columns));
      var batches := BatchesFrom(NullFilled(d.rows), 0);
      var events := seq(|batches|, k requires 0 <= k < |batches| => ExecuteMany(statement, batches[k]));
      assert AllRowsSent(events) == batches;
      Insertion(|d.rows|, events)
  }

  /** The two independent copies of the rename agree: the names of the CREATE TABLE
      column definitions are the INSERT column list, in the same order, and neither
      contains the surrogate key's name. */
  lemma CreateAndInsertAgree(table: string, columns: seq<Column>)
    ensures DefinedNames(ColumnDefs(columns)) == InsertColumns(Labels(columns))
    ensures ProvisionStatements(table, columns)[1].definitions == ColumnDefs(columns)
    ensures InsertStatement(table, Labels(columns)).columns == InsertColumns(Labels(columns))
    ensures SurrogateKey !in InsertColumns(Labels(columns))
  {
  }

  /** Dropping the `has_id_column` test of `insert_data` changes nothing: the list
      comprehension that renames `id` gives the same list on its own. */
  lemma InsertGuardIsRedundant(headers: seq<string>)
    ensures InsertColumns(headers) ==
      seq(|headers|, k requires 0 <= k < |headers| =>
        var s := Sanitize(headers[k]); if Lower(s) == SurrogateKey then RenamedKey else s)
  {
    forall k | 0 <= k < |headers|
      ensures Lower(Sanitize(headers[k])) == Sanitize(headers[k])
    {
      SanitizedIsLowerCase(headers[k]);
    }
  }

  /** The INSERT statement carries one `%s` placeholder per column. */
  lemma PlaceholdersMatchColumns(table: string, headers: seq<string>)
    ensures CountChar(InsertStatement(table, headers).placeholders, '%') == |InsertStatement(table, headers).columns|
    ensures |InsertStatement(table, headers).columns| == |headers|
  {
  }

  /** Renamed columns are not de-duplicated: a header that already sanitises to
      `original_id`, next to one that sanitises to `id`, gives `original_id` twice. */
  lemma RenameCanCollide(headers: seq<string>)
    requires |headers| == 2
    requires Sanitize(headers[0]) == RenamedKey && Sanitize(headers[1]) == SurrogateKey
    ensures InsertColumns(headers) == [RenamedKey, RenamedKey]
  {
    var names := InsertColumns(headers);
    assert names[0] == ColumnName(headers[0]);
    assert names[1] == ColumnName(headers[1]);
    PairDisplay(names);
  }

  /** The headers `original id` and `id` are such a pair. */
  lemma OriginalIdAndIdCollide()
    ensures InsertColumns(["original id", "id"]) == ["original_id", "original_id"]
  {
    SanitizeOriginalId();
    SanitizeId();
    RenameCanCollide(["original id", "id"]);
  }

  /** A header that sanitises to `id` followed by one that does not: both paths rename the
      first to `original_id` and keep the second. */
  lemma IdThenOther(table: string, columns: seq<Column>)
    requires |columns| == 2
    requires Sanitize(columns[0].header) == SurrogateKey && Sanitize(columns[1].header) != SurrogateKey
    ensures DefinedNames(ColumnDefs(columns)) == InsertColumns(Labels(columns))
    ensures InsertColumns(Labels(columns)) == [RenamedKey, Sanitize(columns[1].header)]
  {
    CreateAndInsertAgree(table, columns);
    var names := InsertColumns(Labels(columns));
    assert names[0] == ColumnName(columns[0].header) && names[1] == ColumnName(columns[1].header);
    PairDisplay(names);
  }

  /** Columns `id` and `Name` become `original_id` and `name` on both paths. */
  lemma IdAndNameColumns(table: string)
    ensures var columns := [Column("id", "int64"), Column("Name", "object")];
      && DefinedNames(ColumnDefs(columns)) == [RenamedKey, "name"]
      && InsertColumns(Labels(columns)) == [RenamedKey, "name"]
  {
    SanitizeId();
    SanitizeName();
    IdThenOther(table, [Column("id", "int64"), Column("Name", "object")]);
  }

  /** 2500 rows go out as three batches of 1000, 1000 and 500 rows, in order. */
  lemma TwoThousandFiveHundredRows(table: string, d: Dataset)
    requires |d.rows| == 2500 && |d.columns| > 0
    ensures InsertData(table, d).inserted == 2500
    ensures |InsertData(table, d).events| == 3
    ensures |RowsSent(InsertData(table, d).events[0])| == 1000
    ensures |RowsSent(InsertData(table, d).events[1])| == 1000
    ensures |RowsSent(InsertData(table, d).events[2])| == 500
  {
    var events := InsertData(table, d).events;
    var sent := AllRowsSent(events);
    assert |sent| == 3;
    assert Flatten(sent) == sent[0] + Flatten(sent[1..]);
    assert Flatten(sent[1..]) == sent[1] + Flatten(sent[2..]);
    assert Flatten(sent[2..]) == sent[2] + Flatten(sent[3..]);
    assert |Flatten(sent)| == 2500;
  }
}
