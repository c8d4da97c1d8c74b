/** The CSV directory and the order in which its files are processed
    (`sorted(csv_dir.glob('*.csv'))`). */
module Listing {
  import opened Wrappers
  import opened Data

  /** The glob pattern `*.csv`: any name, the empty one included, followed by `.csv`. */
  predicate IsCsvName(name: string) {
    |name| >= 4 && name[|name| - 4..] == ".csv"
  }

  /** `csv_dir.glob('*.csv')`: the entries whose names match, in directory order. */
  function Glob(entries: seq<CsvFile>): (matched: seq<CsvFile>)
    ensures forall k :: 0 <= k < |matched| ==> IsCsvName(matched[k].name)
    ensures forall e :: e in entries && IsCsvName(e.name) ==> e in matched
    ensures multiset(matched) <= multiset(entries)
  {
    if entries == [] then []
    else
      var rest := Glob(entries[1..]);
      assert entries == [entries[0]] + entries[1..];
      if IsCsvName(entries[0].name) then [entries[0]] + rest else rest
  }

  /** Python's `<=` on `str`: code point by code point, a proper prefix first. */
  predicate NameLe(a: string, b: string)
    decreases |a|
  {
    a == [] || (b != [] && (a[0] < b[0] || (a[0] == b[0] && NameLe(a[1..], b[1..]))))
  }

  lemma {:induction false} NameLeTotal(a: string, b: string)
    ensures NameLe(a, b) || NameLe(b, a)
    decreases |a|
  {
    if a != [] && b != [] && a[0] == b[0] {
      NameLeTotal(a[1..], b[1..]);
    }
  }

  lemma {:induction false} NameLeAntisymmetric(a: string, b: string)
    requires NameLe(a, b) && NameLe(b, a)
    ensures a == b
    decreases |a|
  {
    if a != [] {
      NameLeAntisymmetric(a[1..], b[1..]);
      assert a == [a[0]] + a[1..] && b == [b[0]] + b[1..];
    }
  }

  lemma {:induction false} NameLeTransitive(a: string, b: string, c: string)
    requires NameLe(a, b) && NameLe(b, c)
    ensures NameLe(a, c)
    decreases |a|
  {
    if a != [] && a[0] == b[0] && b[0] == c[0] {
      NameLeTransitive(a[1..], b[1..], c[1..]);
    }
  }

  /** Each name is at most the next. */
  predicate Sorted(files: seq<CsvFile>) {
    forall k :: 0 <= k < |files| - 1 ==> NameLe(files[k].name, files[k + 1].name)
  }

  /** Inserts `f` into the sorted `files` before the first name it does not exceed. */
  function Insert(f: CsvFile, files: seq<CsvFile>): (r: seq<CsvFile>)
    requires Sorted(files)
    ensures Sorted(r)
    ensures multiset(r) == multiset(files) + multiset{f}
    ensures |r| == |files| + 1
    ensures r[0] == f || (files != [] && r[0] == files[0])
  {
    if files == [] then [f]
    else if NameLe(f.name, files[0].name) then [f] + files
    else
      NameLeTotal(f.name, files[0].name);
      var rest := Insert(f, files[1..]);
      assert files == [files[0]] + files[1..];
      [files[0]] + rest
  }

  /** `sorted(...)`: the same files, in name order. Names within one directory differ, so
      this is the only order `sorted` can produce. */
  function Sort(files: seq<CsvFile>): (r: seq<CsvFile>)
    ensures Sorted(r)
    ensures multiset(r) == multiset(files)
    ensures |r| == |files|
  {
    if files == [] then []
    else
      assert files == [files[0]] + files[1..];
      Insert(files[0], Sort(files[1..]))
  }

  /** In a sorted listing every earlier name is at most every later one. */
  lemma {:induction false} SortedPairwise(files: seq<CsvFile>, i: nat, j: nat)
    requires Sorted(files) && i <= j < |files|
    ensures NameLe(files[i].name, files[j].name)
    decreases j - i
  {
    if i == j {
      NameLeReflexive(files[i].name);
    } else {
      SortedPairwise(files, i + 1, j);
      NameLeTransitive(files[i].name, files[i + 1].name, files[j].name);
    }
  }

  lemma {:induction false} NameLeReflexive(a: string)
    ensures NameLe(a, a)
    decreases |a|
  {
    if a != [] {
      NameLeReflexive(a[1..]);
    }
  }

  /** Two sorted listings of the same files with distinct names are equal: the processing
      order is determined by the names alone. */
  lemma {:induction false} SortedIsUnique(a: seq<CsvFile>, b: seq<CsvFile>)
    requires Sorted(a) && Sorted(b) && multiset(a) == multiset(b)
    requires forall i, j :: 0 <= i < j < |a| ==> a[i].name != a[j].name
    ensures a == b
    decreases |a|
  {
    if a != [] {
      SameHead(a, b);
      TailsAgree(a, b);
      SortedIsUnique(a[1..], b[1..]);
      assert a == [a[0]] + a[1..] && b == [b[0]] + b[1..];
    }
  }

  lemma SameHead(a: seq<CsvFile>, b: seq<CsvFile>)
    requires Sorted(a) && Sorted(b) && multiset(a) == multiset(b) && a != []
    requires forall i, j :: 0 <= i < j < |a| ==> a[i].name != a[j].name
    ensures b != [] && a[0] == b[0]
  {
    assert a[0] in multiset(b);
    var i :| 0 <= i < |b| && b[i] == a[0];
    assert b[0] in multiset(a);
    var j :| 0 <= j < |a| && a[j] == b[0];
    SortedPairwise(b, 0, i);
    SortedPairwise(a, 0, j);
    NameLeAntisymmetric(a[0].name, b[0].name);
    assert j == 0;
  }

  lemma TailsAgree(a: seq<CsvFile>, b: seq<CsvFile>)
    requires a != [] && b != [] && a[0] == b[0] && multiset(a) == multiset(b)
    ensures multiset(a[1..]) == multiset(b[1..])
  {
    assert a == [a[0]] + a[1..] && b == [b[0]] + b[1..];
    assert multiset(a) == multiset{a[0]} + multiset(a[1..]);
    assert multiset(b) == multiset{a[0]} + multiset(b[1..]);
    assert multiset(a[1..]) == multiset(a) - multiset{a[0]};
    assert multiset(b[1..]) == multiset(b) - multiset{a[0]};
  }
}
