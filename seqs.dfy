/**
 * Small facts about sequence concatenation and slicing, stated over plain
 * variables so that a proof about a larger term can use them by
 * instantiation instead of reasoning about sequence equality itself.
 */
module Seqs {
  lemma AppendAssoc<T>(a: seq<T>, b: seq<T>, c: seq<T>)
    ensures (a + b) + c == a + (b + c)
  {
  }

  lemma AppendEmpty<T>(s: seq<T>)
    ensures s + [] == s
  {
  }

  lemma EmptyAppend<T>(s: seq<T>)
    ensures [] + s == s
  {
  }

  /** Appending a non-empty sequence is appending its front and then its last element. */
  lemma AppendSnoc<T>(a: seq<T>, s: seq<T>)
    requires s != []
    ensures a + s[..|s| - 1] + [s[|s| - 1]] == a + s
  {
    assert s == s[..|s| - 1] + [s[|s| - 1]];
  }

  /** The front and the last element of `a + b`, for a non-empty `b`. */
  lemma SnocFront<T>(a: seq<T>, b: seq<T>)
    requires b != []
    ensures (a + b)[..|a + b| - 1] == a + b[..|b| - 1]
    ensures (a + b)[|a + b| - 1] == b[|b| - 1]
  {
  }

  lemma AppendIndex<T>(a: seq<T>, b: seq<T>, p: nat)
    requires p < |a + b|
    ensures (a + b)[p] == if p < |a| then a[p] else b[p - |a|]
  {
  }

  lemma SliceStep<T>(s: seq<T>, j: nat)
    requires j < |s|
    ensures s[..j + 1] == s[..j] + [s[j]]
  {
  }

  lemma SplitAt<T>(s: seq<T>, k: nat)
    requires k < |s|
    ensures s == s[..k] + [s[k]] + s[k + 1..]
  {
  }

  /** A prefix of a suffix is a slice. */
  lemma DropTake<T>(s: seq<T>, a: nat, b: nat, n: nat)
    requires a <= b <= |s| && n == b - a
    ensures s[a..][..n] == s[a..b]
  {
  }

  /** A slice up to the end is a suffix. */
  lemma DropAll<T>(s: seq<T>, a: nat, b: nat)
    requires a <= b == |s|
    ensures s[a..b] == s[a..]
  {
  }

  lemma PrefixSplit<T>(s: seq<T>, p: seq<T>)
    requires p <= s
    ensures s == p + s[|p|..]
  {
  }
}
