/** Generic sequence helpers: mapping, flattening a sequence of sequences, slicing. */
module Seqs {

  /** `f` applied to every element, in order. */
  function Map<A, B>(f: A -> B, s: seq<A>): seq<B> {
    seq(|s|, k requires 0 <= k < |s| => f(s[k]))
  }

  /** Mapping a non-empty sequence maps its head, then its tail. */
  lemma MapCons<A, B>(f: A -> B, s: seq<A>)
    requires s != []
    ensures Map(f, s) == [f(s[0])] + Map(f, s[1..])
  {
    var tail := Map(f, s[1..]);
    forall k | 1 <= k < |s|
      ensures Map(f, s)[k] == tail[k - 1]
    {
      assert s[1..][k - 1] == s[k];
    }
  }

  /** Concatenates the pieces in order (Python's `"".join` on strings, `sum(pieces, [])` on lists). */
  function Flatten<T>(pieces: seq<seq<T>>): (r: seq<T>)
  {
    if pieces == [] then [] else pieces[0] + Flatten(pieces[1..])
  }

  /** Flattening a leading piece puts it in front. */
  lemma FlattenCons<T>(piece: seq<T>, rest: seq<seq<T>>)
    ensures Flatten([piece] + rest) == piece + Flatten(rest)
  {
    assert ([piece] + rest)[1..] == rest;
  }

  lemma {:induction false} FlattenAppend<T>(a: seq<seq<T>>, b: seq<seq<T>>)
    ensures Flatten(a + b) == Flatten(a) + Flatten(b)
  {
    if a != [] {
      ConcatFront(a, b);
      FlattenAppend(a[1..], b);
      calc {
        Flatten(a + b);
        a[0] + Flatten(a[1..] + b);
        a[0] + (Flatten(a[1..]) + Flatten(b));
        (a[0] + Flatten(a[1..])) + Flatten(b);
      }
    } else {
      assert a + b == b;
    }
  }

  /** A sequence is its prefix and suffix at any cut, run together. */
  lemma SliceHalves<T>(s: seq<T>, n: nat)
    requires n <= |s|
    ensures s[..n] + s[n..] == s
  {
  }

  /** A sequence is its three slices at any two cuts, run together. */
  lemma SliceThirds<T>(s: seq<T>, i: nat, j: nat)
    requires i <= j <= |s|
    ensures s[..i] + s[i..j] + s[j..] == s
  {
  }

  /** A sequence of length two is the display of its two elements. */
  lemma PairDisplay<T>(s: seq<T>)
    requires |s| == 2
    ensures s == [s[0], s[1]]
  {
  }

  /** The head and tail of a concatenation whose left part is non-empty. */
  lemma ConcatFront<T>(a: seq<T>, b: seq<T>)
    requires a != []
    ensures (a + b)[0] == a[0] && (a + b)[1..] == a[1..] + b
  {
  }

  /** Dropping the left part of a concatenation leaves the right part. */
  lemma DropPrefix<T>(a: seq<T>, b: seq<T>)
    ensures (a + b)[|a|..] == b
  {
  }

  /** A prefix of a suffix is a slice. */
  lemma PrefixOfSuffix<T>(s: seq<T>, i: nat, n: nat)
    requires i + n <= |s|
    ensures s[i..][..n] == s[i..i + n]
  {
  }
}
