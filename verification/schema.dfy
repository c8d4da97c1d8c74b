/**
  Table provisioning (`create_table`): sanitise every header, rename a column that would
  clash with the surrogate key `id`, type each column from its dtype, then drop and
  re-create the table.
 */
module Schema {
  import opened Ascii
  import opened Sanitizer
  import opened TypeMapping
  import opened Data
  import opened Database

  /** The surrogate primary key every created table starts with. */
  const SurrogateKey: string := "id"

  /** The name a data column that sanitises to the surrogate key's name gets instead. */
  const RenamedKey: string := "original_id"

  /** The name one header ends up with, stated without the `has_id_column` guard: its
      sanitised form, except that `id` becomes `original_id`. */
  function ColumnName(header: string): (name: string)
    ensures IsIdentifier(name)
    ensures name != SurrogateKey
    ensures name == Sanitize(header) || (Sanitize(header) == SurrogateKey && name == RenamedKey)
  {
    var s := Sanitize(header);
    if s == SurrogateKey then RenamedKey else s
  }

  /** Sanitised names are already lower case, so the `.lower()` that `create_table` and
      `insert_data` apply before comparing a name with `id` never changes it. */
  lemma SanitizedIsLowerCase(header: string)
    ensures Lower(Sanitize(header)) == Sanitize(header)
  {
    LowerFixesLowerCase(Sanitize(header));
  }

  /** `columns_def` of `create_table`: the column definitions, one per column in file order. */
  function ColumnDefs(columns: seq<Column>): (defs: seq<ColumnDef>)
    ensures |defs| == |columns|
    ensures forall k :: 0 <= k < |columns| ==>
      defs[k].name == ColumnName(columns[k].header) && defs[k].pgType == PostgresType(columns[k].dtype)
    ensures forall k :: 0 <= k < |defs| ==> defs[k].name != SurrogateKey
  {
    var names := RenameClashes(SanitizeEach(Labels(columns)));
    seq(|columns|, k requires 0 <= k < |columns| => ColumnDef(names[k], PostgresType(columns[k].dtype)))
  }

  /** `sanitize_column_name` mapped over `df.columns`: every header sanitised, in order. */
  function SanitizeEach(headers: seq<string>): (sanitized: seq<string>)
    ensures |sanitized| == |headers|
    ensures forall k :: 0 <= k < |headers| ==> sanitized[k] == Sanitize(headers[k])
    ensures forall k :: 0 <= k < |headers| ==> Lower(sanitized[k]) == sanitized[k]
  {
    var sanitized := seq(|headers|, k requires 0 <= k < |headers| => Sanitize(headers[k]));
    AllLowerCase(sanitized);
    sanitized
  }

  /** The rename of `create_table`: when some sanitised name is `id` (compared lower-cased), every such
      name becomes `original_id`; otherwise the names are kept. */
  function RenameClashes(sanitized: seq<string>): (names: seq<string>)
    requires forall k :: 0 <= k < |sanitized| ==> Lower(sanitized[k]) == sanitized[k]
    ensures |names| == |sanitized|
    ensures forall k :: 0 <= k < |sanitized| ==>
      names[k] == (if sanitized[k] == SurrogateKey then RenamedKey else sanitized[k])
  {
    var hasId := exists k :: 0 <= k < |sanitized| && Lower(sanitized[k]) == SurrogateKey;
    if hasId then
      seq(|sanitized|, k requires 0 <= k < |sanitized| =>
        if Lower(sanitized[k]) == SurrogateKey then RenamedKey else sanitized[k])
    else sanitized
  }

  /** A sequence of sanitised names is unchanged by lower-casing, name by name. */
  lemma AllLowerCase(sanitized: seq<string>)
    requires forall k :: 0 <= k < |sanitized| ==> IsIdentifier(sanitized[k])
    ensures forall k :: 0 <= k < |sanitized| ==> Lower(sanitized[k]) == sanitized[k]
  {
    forall k | 0 <= k < |sanitized|
      ensures Lower(sanitized[k]) == sanitized[k]
    {
      LowerFixesLowerCase(sanitized[k]);
    }
  }

  /** The names of the column definitions, in order. */
  function DefinedNames(defs: seq<ColumnDef>): seq<string> {
    seq(|defs|, k requires 0 <= k < |defs| => defs[k].name)
  }

  /** `drop_query` and `create_query`: drop the table, cascading, then create it with the surrogate key and
      the column definitions. */
  function ProvisionStatements(table: string, columns: seq<Column>): (statements: seq<Statement>)
    ensures |statements| == 2
    ensures statements[0] == DropTable(table)
    ensures statements[1].CreateTable? && statements[1].table == table
    ensures DefinedNames(statements[1].definitions) == seq(|columns|, k requires 0 <= k < |columns| => ColumnName(columns[k].header))
  {
    DefinedColumnNames(columns);
    [DropTable(table), CreateTable(table, ColumnDefs(columns))]
  }

  /** The defined names are the column names of the headers, in file order. */
  lemma DefinedColumnNames(columns: seq<Column>)
    ensures DefinedNames(ColumnDefs(columns)) == seq(|columns|, k requires 0 <= k < |columns| => ColumnName(columns[k].header))
  {
    var defs := ColumnDefs(columns);
    var names := seq(|columns|, k requires 0 <= k < |columns| => ColumnName(columns[k].header));
    forall k | 0 <= k < |columns|
      ensures DefinedNames(defs)[k] == names[k]
    {
    }
  }
}
