/**
  Mapping a pandas dtype to a PostgreSQL column type (`get_postgres_type`): the first of
  the substrings `int`, `float`, `bool`, `datetime`, `date` found in the dtype's name
  decides the type; none of them gives TEXT.
 */
module TypeMapping {
  import opened Strings

  datatype PgType = BigInt | DoublePrecision | Boolean | Timestamp | Date | Text

  /** The type as it is written into the CREATE TABLE statement. */
  function SqlName(t: PgType): string {
    match t
    case BigInt => "BIGINT"
    case DoublePrecision => "DOUBLE PRECISION"
    case Boolean => "BOOLEAN"
    case Timestamp => "TIMESTAMP"
    case Date => "DATE"
    case Text => "TEXT"
  }

  /** The substring tests of `get_postgres_type`, in the order they are tried. */
  const Rules: seq<(string, PgType)> :=
    [("int", BigInt), ("float", DoublePrecision), ("bool", Boolean), ("datetime", Timestamp), ("date", Date)]

  /** Rule `k` is the first whose pattern occurs in `dtype`. */
  predicate FirstMatchAt(dtype: string, k: int)
    requires 0 <= k < |Rules|
  {
    Contains(dtype, Rules[k].0) && forall j :: 0 <= j < k ==> !Contains(dtype, Rules[j].0)
  }

  /** `get_postgres_type` on `str(dtype)`. */
  function PostgresType(dtype: string): (t: PgType)
    ensures t == Text <==> forall k :: 0 <= k < |Rules| ==> !Contains(dtype, Rules[k].0)
    ensures forall k :: 0 <= k < |Rules| && FirstMatchAt(dtype, k) ==> t == Rules[k].1
  {
    assert Rules[0] == ("int", BigInt) && Rules[1] == ("float", DoublePrecision) && Rules[2] == ("bool", Boolean);
    assert Rules[3] == ("datetime", Timestamp) && Rules[4] == ("date", Date);
    if Contains(dtype, "int") then BigInt
    else if Contains(dtype, "float") then DoublePrecision
    else if Contains(dtype, "bool") then Boolean
    else if Contains(dtype, "datetime") then Timestamp
    else if Contains(dtype, "date") then Date
    else Text
  }

  /** The SQL type name is always one of the six the loader emits. */
  function PostgresTypeName(dtype: string): (name: string)
    ensures name in {"BIGINT", "DOUBLE PRECISION", "BOOLEAN", "TIMESTAMP", "DATE", "TEXT"}
    ensures name == "TEXT" <==> forall k :: 0 <= k < |Rules| ==> !Contains(dtype, Rules[k].0)
  {
    SqlName(PostgresType(dtype))
  }

  /** Any dtype whose name contains `int` is BIGINT, whatever else it contains. */
  lemma IntWins(dtype: string)
    requires Contains(dtype, "int")
    ensures PostgresType(dtype) == BigInt
  {
    assert FirstMatchAt(dtype, 0);
  }

  /** A `datetime` dtype is never mapped to DATE, although its name contains `date`: it is
      TIMESTAMP unless an earlier pattern matched first. */
  lemma DatetimeIsNeverDate(dtype: string)
    requires Contains(dtype, "datetime")
    ensures PostgresType(dtype) != Date
    ensures !Contains(dtype, "int") && !Contains(dtype, "float") && !Contains(dtype, "bool") ==>
      PostgresType(dtype) == Timestamp
  {
  }

  /** A dtype whose name mentions a date is never stored as TEXT. */
  lemma DateIsNeverText(dtype: string)
    requires Contains(dtype, "date")
    ensures PostgresType(dtype) != Text
  {
    assert Contains(dtype, Rules[4].0);
  }

  /** The dtype names pandas reports for parsed CSV columns. */
  lemma PandasDtypes()
    ensures PostgresType("int64") == BigInt
    ensures PostgresType("float64") == DoublePrecision
    ensures PostgresType("bool") == Boolean
    ensures PostgresType("datetime64[ns]") == Timestamp
    ensures PostgresType("object") == Text
  {
    MissingCharMeansAbsent("object", "int", 0);
    MissingCharMeansAbsent("object", "float", 0);
    MissingCharMeansAbsent("object", "bool", 3);
    MissingCharMeansAbsent("object", "datetime", 0);
    MissingCharMeansAbsent("object", "date", 0);
    assert OccursAt("int64", "int", 0);
    assert OccursAt("float64", "float", 0);
    MissingCharMeansAbsent("float64", "int", 0);
    assert OccursAt("bool", "bool", 0);
    MissingCharMeansAbsent("bool", "int", 0);
    MissingCharMeansAbsent("bool", "float", 0);
    assert OccursAt("datetime64[ns]", "datetime", 0);
    DatetimeNsHasNoInt();
    MissingCharMeansAbsent("datetime64[ns]", "float", 0);
    MissingCharMeansAbsent("datetime64[ns]", "bool", 0);
  }

  lemma DatetimeNsHasNoInt()
    ensures !Contains("datetime64[ns]", "int")
  {
    var s := "datetime64[ns]";
    forall i | 0 <= i <= |s| - 3
      ensures !OccursAt(s, "int", i)
    {
      assert s[i..i + 3][0] == s[i] && s[i..i + 3][1] == s[i + 1];
      if i == 5 {
        assert s[i + 1] == 'm';
      } else {
        assert s[i] != 'i';
      }
    }
  }
}
