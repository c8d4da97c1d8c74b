/** The parsed CSV file as the loader receives it from pandas, and each directory entry with
    the outcomes the loader meets for it. */
module Data {
  import opened Wrappers

  /** A cell value pandas parsed; its exact kind does not matter to the loader. */
  datatype Value = IntValue(i: int) | FloatValue(x: real) | BoolValue(b: bool) | TextValue(s: string)

  /** A cell is missing (NaN in pandas) or holds a value. */
  datatype Cell = Missing | Present(value: Value)

  type Row = seq<Cell>

  /** A column: its header and the name of the dtype pandas inferred for it. */
  datatype Column = Column(header: string, dtype: string)

  /** `df`: the columns in file order and the rows, each aligned with the columns. */
  datatype Dataset = Dataset(columns: seq<Column>, rows: seq<Row>)

  /** The headers, in column order (`df.columns`). */
  function Labels(columns: seq<Column>): seq<string> {
    seq(|columns|, k requires 0 <= k < |columns| => columns[k].header)
  }

  /** `df.empty`: no rows or no columns. */
  predicate IsEmpty(d: Dataset) {
    |d.rows| == 0 || |d.columns| == 0
  }

  /** The `i`-th `execute`/`executemany` issued for a file raises a database error with
      this message. */
  datatype DbFailure = DbFailure(call: nat, message: string)

  /** A directory entry: its name, what pandas makes of its contents, and whether (and
      where) the database rejects a statement sent for it. */
  datatype CsvFile = CsvFile(name: string, parsed: Result<Dataset>, dbFailure: Option<DbFailure>)
}
