/**
  Column-name sanitising (`sanitize_column_name`): lower-case the label, turn every
  run of separators into one underscore, strip underscores at both ends, prefix `col_`
  before a leading digit and fall back to `unnamed_column` for an empty result.
 */
module Sanitizer {
  import opened Ascii
  import opened Seqs

  /** The shape every sanitised name has: non-empty, only `[a-z0-9_]`, no underscore at
      either end, no two underscores in a row, and no leading digit. */
  predicate IsIdentifier(s: string) {
    && |s| > 0
    && IsClean(s)
    && s[0] != '_'
    && s[|s| - 1] != '_'
    && !IsDigit(s[0])
  }

  /** Only `[a-z0-9_]`, and no two underscores next to each other. */
  predicate IsClean(s: string) {
    && (forall i :: 0 <= i < |s| ==> IsIdentChar(s[i]))
    && (forall i :: 0 <= i < |s| - 1 ==> s[i] != '_' || s[i + 1] != '_')
  }

  predicate IsIdentChar(c: char) { IsLower(c) || IsDigit(c) || c == '_' }

  /** `re.sub(r'[^\w\s]', '_', name)`: a character that is neither a word character
      nor whitespace becomes `_`. */
  function ReplaceSpecials(s: string): (r: string)
    ensures |r| == |s|
    ensures forall i :: 0 <= i < |s| ==> r[i] == (if IsWord(s[i]) || IsSpace(s[i]) then s[i] else '_')
  {
    if s == [] then ""
    else [if IsWord(s[0]) || IsSpace(s[0]) then s[0] else '_'] + ReplaceSpecials(s[1..])
  }

  /** The three kinds of run the `re.sub` calls of `sanitize_column_name` collapse. */
  datatype RunClass = Whitespace | Underscores | Separators

  predicate InClass(k: RunClass, c: char) {
    match k
    case Whitespace => IsSpace(c)
    case Underscores => c == '_'
    case Separators => !IsAlnum(c)
  }

  /** Replaces every maximal run of characters of class `k` by one `_`, scanning left to
      right; `open` says a run is already in progress and its `_` already written. */
  function CollapseFrom(k: RunClass, s: string, open: bool): string {
    if s == [] then ""
    else if InClass(k, s[0]) then (if open then "" else "_") + CollapseFrom(k, s[1..], true)
    else [s[0]] + CollapseFrom(k, s[1..], false)
  }

  /** `re.sub(r'\s+', '_', name)` for `Whitespace`, `re.sub(r'_+', '_', name)` for `Underscores`. */
  function Collapse(k: RunClass, s: string): string {
    CollapseFrom(k, s, false)
  }

  /** The only character of class `k` in `r` is `_`, and no two characters of the class
      are adjacent. */
  predicate RunsCollapsed(k: RunClass, r: string) {
    && (forall i :: 0 <= i < |r| && InClass(k, r[i]) ==> r[i] == '_')
    && (forall i :: 0 <= i < |r| - 1 ==> !(InClass(k, r[i]) && InClass(k, r[i + 1])))
  }

  /** A pass over class `k` leaves its runs collapsed; after an open run the result does
      not start with a character of the class. */
  lemma {:induction false} CollapseShape(k: RunClass, s: string, open: bool)
    ensures RunsCollapsed(k, CollapseFrom(k, s, open))
    ensures open && CollapseFrom(k, s, open) != [] ==> !InClass(k, CollapseFrom(k, s, open)[0])
    decreases |s|
  {
    if s != [] {
      var c := s[0];
      CollapseShape(k, s[1..], InClass(k, c));
      var t := CollapseFrom(k, s[1..], InClass(k, c));
      assert RunsCollapsed(k, t);
      var r := CollapseFrom(k, s, open);
      if InClass(k, c) && open {
        assert r == t;
      } else {
        var h := if InClass(k, c) then '_' else c;
        assert r == [h] + t;
        assert !InClass(k, h) || h == '_';
        assert InClass(k, h) && t != [] ==> !InClass(k, t[0]);
        forall i | 0 <= i < |r| && InClass(k, r[i])
          ensures r[i] == '_'
        {
          if i > 0 {
            assert r[i] == t[i - 1];
            assert InClass(k, t[i - 1]);
          } else {
            assert r[i] == h;
          }
        }
        forall i | 0 <= i < |r| - 1
          ensures !(InClass(k, r[i]) && InClass(k, r[i + 1]))
        {
          assert r[i + 1] == t[i];
          if i > 0 {
            assert r[i] == t[i - 1];
          } else {
            assert r[i] == h;
          }
        }
      }
    }
  }

  /** The three `re.sub` calls exactly as written: three passes. */
  function SeparatorPasses(s: string): string {
    Collapse(Underscores, Collapse(Whitespace, ReplaceSpecials(s)))
  }

  /** The three passes run in step with one pass over runs of non-alphanumerics. A
      whitespace run in progress has always just produced an underscore, hence the
      requires. */
  lemma {:induction false} PassesAgreeFrom(s: string, inSpace: bool, afterUnderscore: bool)
    requires inSpace ==> afterUnderscore
    ensures CollapseFrom(Underscores, CollapseFrom(Whitespace, ReplaceSpecials(s), inSpace), afterUnderscore)
         == CollapseFrom(Separators, s, afterUnderscore)
    decreases |s|
  {
    if s != [] {
      var c := s[0];
      var t := s[1..];
      var c' := if IsWord(c) || IsSpace(c) then c else '_';
      assert ReplaceSpecials(s) == [c'] + ReplaceSpecials(t);
      assert ([c'] + ReplaceSpecials(t))[1..] == ReplaceSpecials(t);
      if IsAlnum(c) {
        PassesAgreeFrom(t, false, false);
        var w := CollapseFrom(Whitespace, ReplaceSpecials(t), false);
        assert CollapseFrom(Whitespace, ReplaceSpecials(s), inSpace) == [c] + w;
        assert ([c] + w)[1..] == w;
      } else if IsSpace(c) {
        PassesAgreeFrom(t, true, true);
        var w := CollapseFrom(Whitespace, ReplaceSpecials(t), true);
        if inSpace {
          assert CollapseFrom(Whitespace, ReplaceSpecials(s), inSpace) == w;
        } else {
          assert CollapseFrom(Whitespace, ReplaceSpecials(s), inSpace) == "_" + w;
          assert ("_" + w)[1..] == w;
        }
      } else {
        PassesAgreeFrom(t, false, true);
        var w := CollapseFrom(Whitespace, ReplaceSpecials(t), false);
        assert CollapseFrom(Whitespace, ReplaceSpecials(s), inSpace) == "_" + w;
        assert ("_" + w)[1..] == w;
      }
    }
  }

  /** The three `re.sub` calls together: every maximal run of characters other than letters and
      digits (underscores included) becomes one `_`. */
  lemma SeparatorPassesAsOne(s: string)
    ensures SeparatorPasses(s) == Collapse(Separators, s)
  {
    PassesAgreeFrom(s, false, false);
  }

  /** After the three `re.sub` calls a name holds only letters, digits and single underscores. */
  lemma SeparatorPassesShape(s: string)
    ensures var r := SeparatorPasses(s);
      && (forall i :: 0 <= i < |r| ==> IsAlnum(r[i]) || r[i] == '_')
      && (forall i :: 0 <= i < |r| - 1 ==> r[i] != '_' || r[i + 1] != '_')
  {
    SeparatorPassesAsOne(s);
    CollapseShape(Separators, s, false);
    var r := SeparatorPasses(s);
    assert RunsCollapsed(Separators, r);
    forall i | 0 <= i < |r|
      ensures IsAlnum(r[i]) || r[i] == '_'
    {
      assert InClass(Separators, r[i]) ==> r[i] == '_';
    }
    forall i | 0 <= i < |r| - 1
      ensures r[i] != '_' || r[i + 1] != '_'
    {
      assert !(InClass(Separators, r[i]) && InClass(Separators, r[i + 1]));
    }
  }

  /** `name.strip('_')`: the string without its all-underscore prefix and suffix. */
  function StripUnderscores(s: string): (r: string)
    ensures r == [] || (r[0] != '_' && r[|r| - 1] != '_')
    ensures exists i :: 0 <= i <= |s| - |r| && StrippedAt(s, r, i)
  {
    var l := TrimLeading(s);
    var r := TrimTrailing(l);
    StripFacts(s, l, r);
    r
  }

  /** Cutting underscores from the front, then from the back, leaves a slice surrounded by
      underscores only. */
  lemma StripFacts(s: string, l: string, r: string)
    requires |l| <= |s| && l == s[|s| - |l|..] && forall k :: 0 <= k < |s| - |l| ==> s[k] == '_'
    requires |r| <= |l| && r == l[..|r|] && forall k :: |r| <= k < |l| ==> l[k] == '_'
    ensures StrippedAt(s, r, |s| - |l|)
  {
    var i := |s| - |l|;
    PrefixOfSuffix(s, i, |r|);
    forall k | i + |r| <= k < |s|
      ensures s[k] == '_'
    {
      assert s[k] == l[k - i];
    }
  }

  /** `r` is `s` with the `i` underscores before it and the underscores after it removed. */
  predicate StrippedAt(s: string, r: string, i: nat) {
    && i + |r| <= |s|
    && r == s[i..i + |r|]
    && (forall k :: 0 <= k < i ==> s[k] == '_')
    && (forall k :: i + |r| <= k < |s| ==> s[k] == '_')
  }

  function TrimLeading(s: string): (r: string)
    ensures |r| <= |s| && r == s[|s| - |r|..]
    ensures r == [] || r[0] != '_'
    ensures forall k :: 0 <= k < |s| - |r| ==> s[k] == '_'
  {
    if s != [] && s[0] == '_' then TrimLeading(s[1..]) else s
  }

  function TrimTrailing(s: string): (r: string)
    ensures |r| <= |s| && r == s[..|r|]
    ensures r == [] || r[|r| - 1] != '_'
    ensures forall k :: |r| <= k < |s| ==> s[k] == '_'
  {
    if s != [] && s[|s| - 1] == '_' then TrimTrailing(s[..|s| - 1]) else s
  }

  /** `sanitize_column_name`. */
  function Sanitize(column: string): (name: string)
    ensures IsIdentifier(name)
  {
    var lowered := Lower(column);
    LowerHasNoUpper(column);
    CoreIsClean(lowered);
    Finish(StripUnderscores(SeparatorPasses(lowered)))
  }

  /** The last two steps of `sanitize_column_name`: `col_` before a leading digit, `unnamed_column` for nothing. */
  function Finish(core: string): (name: string)
    requires IsClean(core) && (core == [] || (core[0] != '_' && core[|core| - 1] != '_'))
    ensures IsIdentifier(name)
    ensures core != [] && !IsDigit(core[0]) ==> name == core
  {
    var prefixed := if core != [] && IsDigit(core[0]) then "col_" + core else core;
    assert IsClean(prefixed) by {
      if core != [] && IsDigit(core[0]) {
        assert forall i :: 4 <= i < |prefixed| ==> prefixed[i] == core[i - 4];
      }
    }
    if prefixed == [] then "unnamed_column" else prefixed
  }

  /** The last two steps of `sanitize_column_name`, for every clean core: `col_` goes before a leading digit, an empty core
      becomes `unnamed_column`, and any other core is kept. */
  lemma FinishRule(core: string)
    requires IsClean(core) && (core == [] || (core[0] != '_' && core[|core| - 1] != '_'))
    ensures core != [] && IsDigit(core[0]) ==> Finish(core) == "col_" + core
    ensures core != [] && !IsDigit(core[0]) ==> Finish(core) == core
    ensures core == [] ==> Finish(core) == "unnamed_column"
  {
  }

  /** The underscore-stripped result of the separator passes on a lowered label is clean. */
  lemma CoreIsClean(lowered: string)
    requires forall i :: 0 <= i < |lowered| && IsAlnum(lowered[i]) ==> IsLower(lowered[i]) || IsDigit(lowered[i])
    ensures IsClean(StripUnderscores(SeparatorPasses(lowered)))
  {
    SeparatorPassesAsOne(lowered);
    var collapsed := Collapse(Separators, lowered);
    CollapseIsClean(lowered, false);
    var core := StripUnderscores(collapsed);
    var i :| 0 <= i <= |collapsed| - |core| && StrippedAt(collapsed, core, i);
    CleanSlice(collapsed, i, i + |core|);
  }

  lemma CleanSlice(s: string, i: nat, j: nat)
    requires IsClean(s) && i <= j <= |s|
    ensures IsClean(s[i..j])
  {
    assert forall k :: 0 <= k < j - i ==> s[i..j][k] == s[i + k];
  }

  /** One pass over separator runs yields a clean string; after an open run it does not
      start with `_`. */
  lemma {:induction false} CollapseIsClean(s: string, open: bool)
    requires forall i :: 0 <= i < |s| && IsAlnum(s[i]) ==> IsLower(s[i]) || IsDigit(s[i])
    ensures IsClean(CollapseFrom(Separators, s, open))
    ensures open && CollapseFrom(Separators, s, open) != [] ==> CollapseFrom(Separators, s, open)[0] != '_'
    decreases |s|
  {
    if s != [] {
      var t := s[1..];
      assert forall i :: 0 <= i < |t| ==> t[i] == s[i + 1];
      if !IsAlnum(s[0]) {
        CollapseIsClean(t, true);
        var rest := CollapseFrom(Separators, t, true);
        if !open {
          assert CollapseFrom(Separators, s, open) == "_" + rest;
          assert forall i :: 1 <= i < |rest| + 1 ==> ("_" + rest)[i] == rest[i - 1];
        }
      } else {
        CollapseIsClean(t, false);
        var rest := CollapseFrom(Separators, t, false);
        assert CollapseFrom(Separators, s, open) == [s[0]] + rest;
        assert forall i :: 1 <= i < |rest| + 1 ==> ([s[0]] + rest)[i] == rest[i - 1];
      }
    }
  }

  /** On a clean string the separator pass changes nothing, provided an open run is not
      followed by `_`. */
  lemma {:induction false} CollapseKeepsClean(s: string, open: bool)
    requires IsClean(s)
    requires open ==> s == [] || s[0] != '_'
    ensures CollapseFrom(Separators, s, open) == s
    decreases |s|
  {
    if s != [] {
      var t := s[1..];
      CleanSlice(s, 1, |s|);
      if s[0] == '_' {
        assert t == [] || t[0] != '_' by {
          if t != [] {
            assert s[0] != '_' || s[1] != '_';
          }
        }
        CollapseKeepsClean(t, true);
      } else {
        CollapseKeepsClean(t, false);
      }
      assert s == [s[0]] + t;
    }
  }

  /** A valid identifier is left unchanged by sanitising. */
  lemma SanitizeFixesIdentifiers(s: string)
    requires IsIdentifier(s)
    ensures Sanitize(s) == s
  {
    LowerFixesLowerCase(s);
    SeparatorPassesAsOne(s);
    CollapseKeepsClean(s, false);
    assert TrimLeading(s) == s;
    assert TrimTrailing(s) == s;
  }

  /** The fixed points of `Sanitize` are exactly the identifiers. */
  lemma SanitizeFixpoints(s: string)
    ensures Sanitize(s) == s <==> IsIdentifier(s)
  {
    if IsIdentifier(s) {
      SanitizeFixesIdentifiers(s);
    }
  }

  /** Sanitising twice is sanitising once. */
  lemma SanitizeIdempotent(column: string)
    ensures Sanitize(Sanitize(column)) == Sanitize(column)
  {
    SanitizeFixesIdentifiers(Sanitize(column));
  }

  /** The letters and digits of a string, in order. */
  function Alnums(s: string): string {
    if s == [] then "" else (if IsAlnum(s[0]) then [s[0]] else "") + Alnums(s[1..])
  }

  lemma {:induction false} AlnumsAppend(a: string, b: string)
    ensures Alnums(a + b) == Alnums(a) + Alnums(b)
    decreases |a|
  {
    if a == [] {
      assert a + b == b;
    } else {
      ConcatFront(a, b);
      AlnumsAppend(a[1..], b);
      var first := if IsAlnum(a[0]) then [a[0]] else "";
      calc {
        Alnums(a + b);
        first + Alnums(a[1..] + b);
        first + (Alnums(a[1..]) + Alnums(b));
        (first + Alnums(a[1..])) + Alnums(b);
        Alnums(a) + Alnums(b);
      }
    }
  }

  lemma {:induction false} AlnumsOfUnderscores(u: string)
    requires forall k :: 0 <= k < |u| ==> u[k] == '_'
    ensures Alnums(u) == ""
    decreases |u|
  {
    if u != [] {
      AlnumsOfUnderscores(u[1..]);
    }
  }

  /** The separator pass drops no letter or digit and adds none. */
  lemma {:induction false} AlnumsCollapse(s: string, open: bool)
    ensures Alnums(CollapseFrom(Separators, s, open)) == Alnums(s)
    decreases |s|
  {
    if s != [] {
      var t := s[1..];
      if !IsAlnum(s[0]) {
        AlnumsCollapse(t, true);
        AlnumsAppend(if open then "" else "_", CollapseFrom(Separators, t, true));
      } else {
        AlnumsCollapse(t, false);
        AlnumsAppend([s[0]], CollapseFrom(Separators, t, false));
      }
    }
  }

  /** Stripping underscores drops no letter or digit. */
  lemma AlnumsStrip(s: string)
    ensures Alnums(StripUnderscores(s)) == Alnums(s)
  {
    var r := StripUnderscores(s);
    var i :| 0 <= i <= |s| - |r| && StrippedAt(s, r, i);
    var before, after := s[..i], s[i + |r|..];
    SliceThirds(s, i, i + |r|);
    forall k | 0 <= k < |before| ensures before[k] == '_' {
      assert before[k] == s[k];
    }
    forall k | 0 <= k < |after| ensures after[k] == '_' {
      assert after[k] == s[i + |r| + k];
    }
    AlnumsOfUnderscores(before);
    AlnumsOfUnderscores(after);
    AlnumsAppend(before + r, after);
    AlnumsAppend(before, r);
  }

  /** A clean string that does not start with `_` starts with its first letter or digit. */
  lemma AlnumsHead(s: string)
    requires IsClean(s) && s != [] && s[0] != '_'
    ensures Alnums(s) != [] && Alnums(s)[0] == s[0]
  {
    assert IsIdentChar(s[0]);
  }

  /** Sanitising keeps exactly the letters and digits of the lower-cased label, in order,
      adding only the letters of `col` before a leading digit; a label without any
      becomes `unnamed_column`. */
  lemma SanitizeKeepsAlnums(column: string)
    ensures Alnums(Lower(column)) == [] ==> Sanitize(column) == "unnamed_column"
    ensures Alnums(Lower(column)) != [] ==>
      Alnums(Sanitize(column)) == (if IsDigit(Alnums(Lower(column))[0]) then "col" else "") + Alnums(Lower(column))
  {
    var lowered := Lower(column);
    LowerHasNoUpper(column);
    CoreIsClean(lowered);
    SeparatorPassesAsOne(lowered);
    var core := StripUnderscores(SeparatorPasses(lowered));
    AlnumsCollapse(lowered, false);
    AlnumsStrip(Collapse(Separators, lowered));
    assert Alnums(core) == Alnums(lowered);
    if core != [] {
      AlnumsHead(core);
      if IsDigit(core[0]) {
        AlnumsAppend("col_", core);
        assert Alnums("col_") == "col";
      }
    }
  }

  /** A run of letters and digits passes through the separator pass unchanged and closes any open run. */
  lemma {:induction false} CollapseAlnumPrefix(a: string, t: string, open: bool)
    requires forall i :: 0 <= i < |a| ==> IsAlnum(a[i])
    ensures CollapseFrom(Separators, a + t, open) == a + CollapseFrom(Separators, t, open && a == [])
    decreases |a|
  {
    if a != [] {
      assert (a + t)[1..] == a[1..] + t;
      CollapseAlnumPrefix(a[1..], t, false);
      assert a == [a[0]] + a[1..];
    } else {
      assert a + t == t;
    }
  }

  /** A non-empty run of separators becomes one `_`, or nothing when a run is already open. */
  lemma {:induction false} CollapseSeparatorRun(r: string, t: string, open: bool)
    requires r != [] && forall i :: 0 <= i < |r| ==> !IsAlnum(r[i])
    ensures CollapseFrom(Separators, r + t, open) == (if open then "" else "_") + CollapseFrom(Separators, t, true)
    decreases |r|
  {
    assert (r + t)[1..] == r[1..] + t;
    if |r| > 1 {
      CollapseSeparatorRun(r[1..], t, true);
    } else {
      assert r[1..] + t == t;
    }
  }

  /** Sanitising goes through the one-pass form of the three `re.sub` calls. */
  lemma SanitizeViaOnePass(column: string, collapsed: string)
    requires Collapse(Separators, Lower(column)) == collapsed
    ensures SeparatorPasses(Lower(column)) == collapsed
  {
    SeparatorPassesAsOne(Lower(column));
  }

  /** Two words around a run of separators come out joined by one underscore. */
  lemma CollapseTwoWords(w1: string, s1: string, w2: string)
    requires AllAlnum(w1) && AllAlnum(w2) && w2 != [] && IsSeparatorRun(s1)
    ensures Collapse(Separators, w1 + s1 + w2) == w1 + "_" + w2
  {
    CollapseAlnumPrefix(w2, "", false);
    assert w2 + "" == w2;
    CollapseSeparatorRun(s1, w2, false);
    CollapseAlnumPrefix(w1, s1 + w2, false);
    assert w1 + s1 + w2 == w1 + (s1 + w2);
  }

  /** `original id` sanitises to `original_id`. */
  lemma SanitizeOriginalId()
    ensures Sanitize("original id") == "original_id"
  {
    LowerOriginalId();
    CollapseOriginalId();
    SanitizeViaOnePass("original id", "original_id");
    StripOriginalId();
  }

  lemma LowerOriginalId()
    ensures Lower("original id") == "original id"
  {
  }

  lemma CollapseOriginalId()
    ensures Collapse(Separators, "original id") == "original_id"
  {
    CollapseTwoWords("original", " ", "id");
    assert "original" + " " + "id" == "original id";
    assert "original" + "_" + "id" == "original_id";
  }

  lemma StripOriginalId()
    ensures StripUnderscores("original_id") == "original_id"
  {
  }

  /** `Name` sanitises to `name`. */
  lemma SanitizeName()
    ensures Sanitize("Name") == "name"
  {
    LowerName();
    CollapseName();
    SanitizeViaOnePass("Name", "name");
    StripName();
  }

  lemma LowerName()
    ensures Lower("Name") == "name"
  {
  }

  lemma CollapseName()
    ensures Collapse(Separators, "name") == "name"
  {
    CollapseAlnumPrefix("name", "", false);
    assert "name" + "" == "name";
  }

  lemma StripName()
    ensures StripUnderscores("name") == "name"
  {
  }

  /** `id` is already an identifier. */
  lemma SanitizeId()
    ensures Sanitize("id") == "id"
  {
    SanitizeFixesIdentifiers("id");
  }

  lemma CollapsePatientId()
    ensures Collapse(Separators, "patient id") == "patient_id"
  {
    CollapseTwoWords("patient", " ", "id");
    assert "patient" + " " + "id" == "patient id";
    assert "patient" + "_" + "id" == "patient_id";
  }

  /** `"Patient ID"` becomes `patient_id`. */
  lemma SanitizePatientId()
    ensures Sanitize("Patient ID") == "patient_id"
  {
    LowerPatientId();
    CollapsePatientId();
    SanitizeViaOnePass("Patient ID", "patient_id");
    StripPatientId();
  }

  lemma LowerPatientId()
    ensures Lower("Patient ID") == "patient id"
  {
  }

  lemma StripPatientId()
    ensures StripUnderscores("patient_id") == "patient_id"
  {
  }

  predicate AllAlnum(a: string) { forall i :: 0 <= i < |a| ==> IsAlnum(a[i]) }

  predicate IsSeparatorRun(a: string) { a != [] && forall i :: 0 <= i < |a| ==> !IsAlnum(a[i]) }

  /** Three words, each followed by a run of separators, come out joined by single underscores. */
  lemma CollapseThreeWords(w1: string, s1: string, w2: string, s2: string, w3: string, s3: string)
    requires AllAlnum(w1) && AllAlnum(w2) && AllAlnum(w3) && w2 != [] && w3 != []
    requires IsSeparatorRun(s1) && IsSeparatorRun(s2) && IsSeparatorRun(s3)
    ensures Collapse(Separators, w1 + s1 + w2 + s2 + w3 + s3) == w1 + "_" + w2 + "_" + w3 + "_"
  {
    CollapseSeparatorRun(s3, "", false);
    assert s3 + "" == s3;
    CollapseAlnumPrefix(w3, s3, false);
    CollapseSeparatorRun(s2, w3 + s3, false);
    CollapseAlnumPrefix(w2, s2 + (w3 + s3), false);
    CollapseSeparatorRun(s1, w2 + (s2 + (w3 + s3)), false);
    CollapseAlnumPrefix(w1, s1 + (w2 + (s2 + (w3 + s3))), false);
    assert w1 + s1 + w2 + s2 + w3 + s3 == w1 + (s1 + (w2 + (s2 + (w3 + s3))));
  }

  lemma CollapseDose()
    ensures Collapse(Separators, "2nd-dose (mg)") == "2nd_dose_mg_"
  {
    CollapseThreeWords("2nd", "-", "dose", " (", "mg", ")");
    assert "2nd" + "-" + "dose" + " (" + "mg" + ")" == "2nd-dose (mg)";
    assert "2nd" + "_" + "dose" + "_" + "mg" + "_" == "2nd_dose_mg_";
  }

  lemma LowerDose()
    ensures Lower("2nd-Dose (mg)") == "2nd-dose (mg)"
  {
  }

  lemma StripDose()
    ensures StripUnderscores("2nd_dose_mg_") == "2nd_dose_mg"
  {
    assert TrimLeading("2nd_dose_mg_") == "2nd_dose_mg_";
  }

  lemma FinishDose()
    ensures Finish("2nd_dose_mg") == "col_2nd_dose_mg"
  {
  }

  /** `"2nd-Dose (mg)"` becomes `col_2nd_dose_mg`. */
  lemma SanitizeDose()
    ensures Sanitize("2nd-Dose (mg)") == "col_2nd_dose_mg"
  {
    LowerDose();
    CollapseDose();
    SanitizeViaOnePass("2nd-Dose (mg)", "2nd_dose_mg_");
    StripDose();
    FinishDose();
  }

  /** The empty label becomes `unnamed_column`. */
  lemma SanitizeEmpty()
    ensures Sanitize("") == "unnamed_column"
  {
  }

  /** A label of underscores only becomes `unnamed_column`. */
  lemma SanitizeUnderscores()
    ensures Sanitize("___") == "unnamed_column"
  {
    LowerUnderscores();
    CollapseUnderscores();
    SanitizeViaOnePass("___", "_");
    StripSingleUnderscore();
  }

  lemma LowerUnderscores()
    ensures Lower("___") == "___"
  {
  }

  lemma CollapseUnderscores()
    ensures Collapse(Separators, "___") == "_"
  {
    CollapseSeparatorRun("___", "", false);
    assert "___" == "___" + "";
  }

  lemma StripSingleUnderscore()
    ensures StripUnderscores("_") == ""
  {
    assert TrimLeading("_") == TrimLeading("");
  }
}
