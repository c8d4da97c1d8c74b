/** Deriving a table name from a CSV file name (`get_table_name_from_filename`). */
module TableNames {
  import opened Seqs
  import opened Strings

  const Extension := ".csv"

  /** `filename.replace('.csv', '')`: every non-overlapping `.csv`, scanned left to right,
      is removed, wherever it sits in the name. The name splits at those occurrences into
      pieces free of `.csv`; the table name is the pieces run together, four characters
      shorter per occurrence. */
  function TableName(filename: string): (table: string)
    ensures var pieces := Split(filename, Extension);
      && Join(pieces, Extension) == filename
      && (forall k :: 0 <= k < |pieces| ==> !Contains(pieces[k], Extension))
      && table == Flatten(pieces)
      && |table| == |filename| - 4 * (|pieces| - 1)
    ensures !Contains(filename, Extension) ==> table == filename
  {
    var pieces := Split(filename, Extension);
    JoinSplit(filename, Extension);
    SplitPiecesAreFree(filename, Extension);
    RemoveAllIsConcatOfSplit(filename, Extension);
    JoinLength(pieces, Extension);
    if !Contains(filename, Extension) then
      RemoveAllWithoutOccurrence(filename, Extension);
      RemoveAll(filename, Extension)
    else
      RemoveAll(filename, Extension)
  }

  /** A name that is a stem without `.csv` followed by one `.csv` loses exactly that suffix:
      no occurrence can straddle the stem and the suffix, since `.` begins `.csv` and appears
      nowhere else in it. */
  lemma StemKeptWhenOnlySuffix(stem: string)
    requires !Contains(stem, Extension)
    ensures TableName(stem + Extension) == stem
  {
    RemovalKeepsStem(stem);
  }

  lemma {:induction false} RemovalKeepsStem(stem: string)
    requires !Contains(stem, Extension)
    ensures RemoveAll(stem + Extension, Extension) == stem
    decreases |stem|
  {
    var s := stem + Extension;
    if stem == [] {
      assert s == Extension + [];
      RemoveAllAtMatch([], Extension);
    } else {
      assert !(s[..4] == Extension) by {
        if |stem| >= 4 {
          assert s[..4] == stem[..4];
          assert !OccursAt(stem, Extension, 0);
        } else {
          assert s[|stem|] == '.' && Extension[|stem|] != '.';
          assert s[..4][|stem|] == s[|stem|];
        }
      }
      forall i | 0 <= i <= |stem[1..]| - |Extension|
        ensures !OccursAt(stem[1..], Extension, i)
      {
        assert stem[1..][i..i + 4] == stem[i + 1..i + 5];
        assert !OccursAt(stem, Extension, i + 1);
      }
      RemovalKeepsStem(stem[1..]);
      assert s[1..] == stem[1..] + Extension;
    }
  }

  /** `patients.csv` names the table `patients`. */
  lemma PatientsTable()
    ensures TableName("patients.csv") == "patients"
  {
    MissingCharMeansAbsent("patients", Extension, 0);
    StemKeptWhenOnlySuffix("patients");
    assert "patients" + Extension == "patients.csv";
  }

  /** A doubled extension is removed twice. */
  lemma DoubledExtension()
    ensures TableName("x.csv.csv") == "x"
  {
    RemoveAllAtMatch([], Extension);
    RemoveAllAtMatch(Extension, Extension);
    RemoveAllPastWord("x", Extension + Extension, Extension);
    assert "x" + (Extension + (Extension + [])) == "x.csv.csv";
  }

  /** An inner `.csv` is removed too, not only the suffix. */
  lemma InnerExtension()
    ensures TableName("data.csv.bak") == "data.bak"
  {
    InnerRemoval();
  }

  lemma InnerRemoval()
    ensures RemoveAll("data.csv.bak", Extension) == "data.bak"
  {
    MissingCharMeansAbsent(".bak", Extension, 1);
    ExtensionBetween("data", ".bak");
    assert "data" + Extension + ".bak" == "data.csv.bak";
  }

  /** One `.csv` between a dot-free word and a tail without `.csv` is the only thing removed. */
  lemma ExtensionBetween(w: string, v: string)
    requires forall i :: 0 <= i < |w| ==> w[i] != '.'
    requires !Contains(v, Extension)
    ensures RemoveAll(w + Extension + v, Extension) == w + v
  {
    RemoveAllWithoutOccurrence(v, Extension);
    RemoveAllAtMatch(v, Extension);
    RemoveAllPastWord(w, Extension + v, Extension);
    assert w + Extension + v == w + (Extension + v);
  }

  /** Removal is a single scan: the characters around a removed `.csv` can close up into a
      new one, so the table name may itself still contain `.csv`. */
  lemma RemovalCanLeaveExtension()
    ensures TableName(".c.csvsv") == ".csv"
    ensures Contains(TableName(".c.csvsv"), Extension)
  {
    RemoveAllPastWord("sv", [], Extension);
    RemoveAllAtMatch("sv", Extension);
    RemoveAllPastWord("c", Extension + "sv", Extension);
    assert !(".c.csvsv"[..4] == Extension) by {
      assert ".c.csvsv"[1] == 'c' && Extension[1] == 'c' && ".c.csvsv"[2] != Extension[2];
    }
    assert ".c.csvsv"[1..] == "c" + (Extension + "sv");
    assert "c" + ("sv" + []) == "csv";
    assert OccursAt(".csv", Extension, 0);
  }
}
