/** A worked run: `a.csv` with columns `X`, `Y` and two rows loads; `b.csv` cannot be
    parsed. */
module Scenario {
  import opened Wrappers
  import opened Strings
  import opened Data
  import opened Database
  import opened Loader
  import opened TableNames
  import opened Listing
  import opened Orchestrator

  const DataA := Dataset(
    [Column("X", "int64"), Column("Y", "object")],
    [[Present(IntValue(1)), Present(TextValue("p"))], [Present(IntValue(2)), Missing]])

  const FileA := CsvFile("a.csv", Ok(DataA), None)

  const FileB := CsvFile("b.csv", Err("Error tokenizing data"), None)

  /** A one-character stem other than `.` names its table. */
  lemma OneLetterTable(c: char)
    requires c != '.'
    ensures TableName([c] + Extension) == [c]
  {
    MissingCharMeansAbsent([c], Extension, 0);
    StemKeptWhenOnlySuffix([c]);
  }

  /** Both names match `*.csv`, and `a.csv` sorts before `b.csv`. */
  lemma ListingAB()
    ensures Sort(Glob([FileA, FileB])) == [FileA, FileB]
  {
    assert IsCsvName(FileA.name) && IsCsvName(FileB.name);
    assert Glob([FileB]) == [FileB];
    assert Glob([FileA, FileB]) == [FileA, FileB];
    assert [FileA, FileB][1..] == [FileB];
    assert Sort([FileB]) == [FileB];
    assert NameLe(FileA.name, FileB.name);
  }

  lemma LoadA()
    ensures LoadCsv(FileA).result == LoadResult("a.csv", "a", Succeeded(2, 2))
  {
    OneLetterTable('a');
    assert ['a'] + Extension == "a.csv";
  }

  lemma LoadB()
    ensures LoadCsv(FileB).result == LoadResult("b.csv", "b", Failed("Error tokenizing data"))
  {
    OneLetterTable('b');
    assert ['b'] + Extension == "b.csv";
  }

  const ResultA := LoadResult("a.csv", "a", Succeeded(2, 2))

  const ResultB := LoadResult("b.csv", "b", Failed("Error tokenizing data"))

  lemma ResultsAB()
    ensures LoadAll([FileA, FileB]).results == [ResultA, ResultB]
  {
    LoadA();
    LoadB();
  }

  /** One success followed by one failure summarise as such. */
  lemma SummaryOfTwo(ok: LoadResult, bad: LoadResult)
    requires ok.status.Succeeded? && bad.status.Failed?
    ensures Summarize([ok, bad]) == Summary([ok], [bad], ok.status.rows)
  {
    var rs := [ok, bad];
    assert rs[1..] == [bad] && rs[1..][1..] == [];
    assert Successes(rs) == [ok] + Successes([bad]);
    assert Successes([bad]) == [] + Successes([]);
    assert Failures(rs) == [] + Failures([bad]);
    assert Failures([bad]) == [bad] + Failures([]);
    assert TotalRows([ok]) == ok.status.rows + TotalRows([]);
  }

  /** The run completes with one success (table `a`, 2 rows, 2 columns) and one failure
      (`b.csv`), in that order, one commit and one rollback. */
  lemma EndToEnd()
    ensures var out := Run(Some([FileA, FileB]), None);
      && out.Completed?
      && out.results == [ResultA, ResultB]
      && out.summary == Summary([ResultA], [ResultB], 2)
      && CountEvent(out.events, Commit) == 1 && CountEvent(out.events, Rollback) == 1
      && ExitCode(out) == 0
  {
    ListingAB();
    ResultsAB();
    SummaryOfTwo(ResultA, ResultB);
  }
}
