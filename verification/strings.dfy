/** String operations of Python's `str` that the loader relies on: `in`, `join`, `split` and `replace`. */
module Strings {
  import opened Seqs

  /** `p` occurs in `s` starting at index `i`. */
  predicate OccursAt(s: string, p: string, i: nat) {
    i + |p| <= |s| && s[i..i + |p|] == p
  }

  /** Python's `p in s`. */
  predicate Contains(s: string, p: string) {
    exists i :: 0 <= i <= |s| - |p| && OccursAt(s, p, i)
  }

  /** A string that contains `q` contains every substring of `q`. */
  lemma ContainsTransitive(s: string, q: string, p: string)
    requires Contains(s, q) && Contains(q, p)
    ensures Contains(s, p)
  {
    var i :| 0 <= i <= |s| - |q| && OccursAt(s, q, i);
    var j :| 0 <= j <= |q| - |p| && OccursAt(q, p, j);
    assert s[i..i + |q|] == q;
    forall k | 0 <= k < |p|
      ensures s[i + j + k] == p[k]
    {
      assert s[i + j + k] == s[i..i + |q|][j + k];
      assert q[j..j + |p|][k] == q[j + k];
    }
    assert s[i + j..i + j + |p|] == p;
    assert OccursAt(s, p, i + j);
  }

  /** A string lacking some character of `p` does not contain `p`. */
  lemma MissingCharMeansAbsent(s: string, p: string, j: nat)
    requires j < |p| && forall i :: 0 <= i < |s| ==> s[i] != p[j]
    ensures !Contains(s, p)
  {
    forall i | 0 <= i <= |s| - |p|
      ensures !OccursAt(s, p, i)
    {
      assert s[i..i + |p|][j] == s[i + j];
    }
  }

  /** `sep.join(parts)`. */
  function Join(parts: seq<string>, sep: string): string {
    if parts == [] then ""
    else if |parts| == 1 then parts[0]
    else parts[0] + sep + Join(parts[1..], sep)
  }

  lemma {:induction false} JoinLength(parts: seq<string>, sep: string)
    requires parts != []
    ensures |Join(parts, sep)| == |Flatten(parts)| + |sep| * (|parts| - 1)
  {
    if |parts| > 1 {
      JoinLength(parts[1..], sep);
    }
  }

  /** `s.replace(p, '')`: a left-to-right scan that drops every non-overlapping occurrence of `p`. */
  function RemoveAll(s: string, p: string): string
    requires |p| > 0
    decreases |s|
  {
    if |p| <= |s| && s[..|p|] == p then RemoveAll(s[|p|..], p)
    else if s == [] then ""
    else [s[0]] + RemoveAll(s[1..], p)
  }

  /** `s.split(p)`: the pieces between the occurrences the same scan finds. */
  function Split(s: string, p: string): (pieces: seq<string>)
    requires |p| > 0
    ensures |pieces| >= 1
    decreases |s|
  {
    if |p| <= |s| && s[..|p|] == p then [""] + Split(s[|p|..], p)
    else if s == [] then [""]
    else
      var rest := Split(s[1..], p);
      [[s[0]] + rest[0]] + rest[1..]
  }

  /** Splitting and joining with the same separator gives back the string. */
  lemma {:induction false} JoinSplit(s: string, p: string)
    requires |p| > 0
    ensures Join(Split(s, p), p) == s
    decreases |s|
  {
    if |p| <= |s| && s[..|p|] == p {
      JoinSplit(s[|p|..], p);
      JoinSplitAtMatch(s, p);
    } else if s != [] {
      JoinSplit(s[1..], p);
      JoinSplitPastChar(s, p);
    }
  }

  lemma JoinSplitAtMatch(s: string, p: string)
    requires |p| > 0 && |p| <= |s| && s[..|p|] == p
    requires Join(Split(s[|p|..], p), p) == s[|p|..]
    ensures Join(Split(s, p), p) == s
  {
    var rest := Split(s[|p|..], p);
    SplitAtMatch(s, p);
    JoinEmptyHead(rest, p);
    calc {
      Join(Split(s, p), p);
      Join([""] + rest, p);
      p + Join(rest, p);
      s[..|p|] + s[|p|..];
      { SliceHalves(s, |p|); }
      s;
    }
  }

  lemma SplitAtMatch(s: string, p: string)
    requires |p| > 0 && |p| <= |s| && s[..|p|] == p
    ensures Split(s, p) == [""] + Split(s[|p|..], p)
  {
  }

  lemma JoinEmptyHead(parts: seq<string>, sep: string)
    requires parts != []
    ensures Join([""] + parts, sep) == sep + Join(parts, sep)
  {
    assert ([""] + parts)[1..] == parts;
  }

  lemma JoinSplitPastChar(s: string, p: string)
    requires |p| > 0 && s != [] && !(|p| <= |s| && s[..|p|] == p)
    requires Join(Split(s[1..], p), p) == s[1..]
    ensures Join(Split(s, p), p) == s
  {
    var rest := Split(s[1..], p);
    SplitPastChar(s, p);
    JoinCons(s[0], rest, p);
    calc {
      Join(Split(s, p), p);
      Join([[s[0]] + rest[0]] + rest[1..], p);
      [s[0]] + Join(rest, p);
      [s[0]] + s[1..];
      { assert s == [s[0]] + s[1..]; }
      s;
    }
  }

  lemma SplitPastChar(s: string, p: string)
    requires |p| > 0 && s != [] && !(|p| <= |s| && s[..|p|] == p)
    ensures Split(s, p) == [[s[0]] + Split(s[1..], p)[0]] + Split(s[1..], p)[1..]
  {
  }

  /** Prepending a character to the first part prepends it to the joined string. */
  lemma JoinCons(c: char, parts: seq<string>, sep: string)
    requires parts != []
    ensures Join([[c] + parts[0]] + parts[1..], sep) == [c] + Join(parts, sep)
  {
    var parts' := [[c] + parts[0]] + parts[1..];
    if |parts| > 1 {
      assert parts'[1..] == parts[1..];
    }
  }

  /** Removing every occurrence is concatenating the pieces between them. */
  lemma {:induction false} RemoveAllIsConcatOfSplit(s: string, p: string)
    requires |p| > 0
    ensures RemoveAll(s, p) == Flatten(Split(s, p))
    decreases |s|
  {
    if |p| <= |s| && s[..|p|] == p {
      RemoveAllIsConcatOfSplit(s[|p|..], p);
    } else if s != [] {
      RemoveAllIsConcatOfSplit(s[1..], p);
      var rest := Split(s[1..], p);
      assert Flatten(rest) == rest[0] + Flatten(rest[1..]);
    }
  }

  /** The first piece is a prefix of the string. */
  lemma {:induction false} SplitHeadIsPrefix(s: string, p: string)
    requires |p| > 0
    ensures |Split(s, p)[0]| <= |s| && Split(s, p)[0] == s[..|Split(s, p)[0]|]
    decreases |s|
  {
    if |p| <= |s| && s[..|p|] == p {
    } else if s != [] {
      SplitHeadIsPrefix(s[1..], p);
    }
  }

  /** The scan is leftmost: no piece of the split contains the separator. */
  lemma {:induction false} SplitPiecesAreFree(s: string, p: string)
    requires |p| > 0
    ensures forall k :: 0 <= k < |Split(s, p)| ==> !Contains(Split(s, p)[k], p)
    decreases |s|
  {
    if |p| <= |s| && s[..|p|] == p {
      SplitPiecesAreFree(s[|p|..], p);
      SplitAtMatch(s, p);
      assert !OccursAt("", p, 0);
    } else if s == [] {
      assert !OccursAt("", p, 0);
    } else {
      var rest := Split(s[1..], p);
      SplitPiecesAreFree(s[1..], p);
      SplitHeadIsPrefix(s[1..], p);
      SplitPastChar(s, p);
      ConsPieceIsFree(s, p, rest[0]);
      var pieces := Split(s, p);
      forall k | 0 <= k < |pieces| ensures !Contains(pieces[k], p) {
        if k > 0 {
          assert pieces[k] == rest[k];
        }
      }
    }
  }

  /** A piece free of `p` that starts the tail of `s` stays free with the head of `s` in
      front, when `p` does not start `s`. */
  lemma ConsPieceIsFree(s: string, p: string, piece: string)
    requires |p| > 0 && s != [] && !(|p| <= |s| && s[..|p|] == p)
    requires |piece| <= |s[1..]| && piece == s[1..][..|piece|] && !Contains(piece, p)
    ensures !Contains([s[0]] + piece, p)
  {
    var head := [s[0]] + piece;
    assert head == s[..|head|];
    forall i | 0 <= i <= |head| - |p|
      ensures !OccursAt(head, p, i)
    {
      if i == 0 {
        assert head[..|p|] == s[..|p|];
      } else {
        assert head[i..i + |p|] == piece[i - 1..i - 1 + |p|];
        assert !OccursAt(piece, p, i - 1);
      }
    }
  }

  /** An occurrence in the tail of `s` is an occurrence in `s`, one place later. */
  lemma OccursInTail(s: string, p: string, i: nat)
    requires s != []
    ensures OccursAt(s[1..], p, i) ==> OccursAt(s, p, i + 1)
  {
    if i + |p| <= |s[1..]| {
      assert s[1..][i..i + |p|] == s[i + 1..i + 1 + |p|];
    }
  }

  /** Without an occurrence, removing occurrences changes nothing. */
  lemma {:induction false} RemoveAllWithoutOccurrence(s: string, p: string)
    requires |p| > 0 && !Contains(s, p)
    ensures RemoveAll(s, p) == s
    decreases |s|
  {
    if s != [] {
      assert !(|p| <= |s| && s[..|p|] == p) by {
        if |p| <= |s| {
          assert !OccursAt(s, p, 0);
        }
      }
      forall i | 0 <= i <= |s[1..]| - |p|
        ensures !OccursAt(s[1..], p, i)
      {
        OccursInTail(s, p, i);
      }
      RemoveAllWithoutOccurrence(s[1..], p);
    }
  }

  /** An occurrence at the front is dropped and the scan resumes after it. */
  lemma RemoveAllAtMatch(s: string, p: string)
    requires |p| > 0
    ensures RemoveAll(p + s, p) == RemoveAll(s, p)
  {
    assert (p + s)[..|p|] == p;
    assert (p + s)[|p|..] == s;
  }

  /** Characters that cannot begin `p` pass through the scan unchanged. */
  lemma {:induction false} RemoveAllPastWord(w: string, s: string, p: string)
    requires |p| > 0 && forall i :: 0 <= i < |w| ==> w[i] != p[0]
    ensures RemoveAll(w + s, p) == w + RemoveAll(s, p)
    decreases |w|
  {
    if w != [] {
      var t := w + s;
      assert t[0] == w[0];
      assert !(|p| <= |t| && t[..|p|] == p);
      assert t[1..] == w[1..] + s;
      RemoveAllPastWord(w[1..], s, p);
    } else {
      assert w + s == s;
    }
  }

  /** Number of occurrences of the character `c` in `s`. */
  function CountChar(s: string, c: char): nat {
    if s == [] then 0 else (if s[0] == c then 1 else 0) + CountChar(s[1..], c)
  }

  lemma {:induction false} CountCharAppend(a: string, b: string, c: char)
    ensures CountChar(a + b, c) == CountChar(a, c) + CountChar(b, c)
  {
    if a != [] {
      ConcatFront(a, b);
      CountCharAppend(a[1..], b, c);
      assert CountChar(a + b, c) == (if a[0] == c then 1 else 0) + CountChar(a[1..] + b, c);
    } else {
      assert a + b == b;
    }
  }
}
