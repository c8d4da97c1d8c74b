/** What the loader sends over its one database connection, recorded as a trace of events. */
module Database {
  import opened Wrappers
  import opened Data
  import opened TypeMapping
  import opened Seqs

  /** One entry of the CREATE TABLE column list: `"name" TYPE`. */
  datatype ColumnDef = ColumnDef(name: string, pgType: PgType)

  /** The statements the loader issues; their SQL text is not modelled. */
  datatype Statement =
    | DropTable(table: string)
    | CreateTable(table: string, definitions: seq<ColumnDef>)
    | InsertInto(table: string, columns: seq<string>, placeholders: string)

  /** One parameter tuple of `executemany`: a null-able value per column. */
  type Params = seq<Option<Value>>

  /** `cursor.execute`, `cursor.executemany`, `conn.commit` and `conn.rollback`. */
  datatype Event =
    | Execute(statement: Statement)
    | ExecuteMany(statement: Statement, rows: seq<Params>)
    | Commit
    | Rollback

  /** Commit and rollback end a transaction. */
  predicate IsTerminal(e: Event) {
    e.Commit? || e.Rollback?
  }

  /** Number of transaction-ending events in a trace. */
  function CountTerminal(events: seq<Event>): nat {
    if events == [] then 0 else (if IsTerminal(events[0]) then 1 else 0) + CountTerminal(events[1..])
  }

  /** Number of occurrences of event `e` in a trace. */
  function CountEvent(events: seq<Event>, e: Event): nat {
    if events == [] then 0 else (if events[0] == e then 1 else 0) + CountEvent(events[1..], e)
  }

  lemma {:induction false} CountsAppend(a: seq<Event>, b: seq<Event>)
    ensures CountTerminal(a + b) == CountTerminal(a) + CountTerminal(b)
    ensures CountEvent(a + b, Commit) == CountEvent(a, Commit) + CountEvent(b, Commit)
    ensures CountEvent(a + b, Rollback) == CountEvent(a, Rollback) + CountEvent(b, Rollback)
    decreases |a|
  {
    if a == [] {
      assert a + b == b;
    } else {
      ConcatFront(a, b);
      CountsAppend(a[1..], b);
    }
  }
}
