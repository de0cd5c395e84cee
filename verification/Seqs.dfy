/** Overwriting part of a sequence, element by element. */
module Seqs {

  /** The sequence with x stored at the given offset. */
  function Put<T>(was: seq<T>, at: nat, x: seq<T>): (s: seq<T>)
    requires at + |x| <= |was|
    ensures |s| == |was|
    ensures s[..at] == was[..at] && s[at..at + |x|] == x && s[at + |x|..] == was[at + |x|..]
  {
    was[..at] + x + was[at + |x|..]
  }

  lemma PutNone<T>(was: seq<T>, at: nat, x: seq<T>)
    requires at <= |was| && x == []
    ensures Put(was, at, x) == was
  {
  }

  /** One more element is stored. */
  lemma PutNext<T>(was: seq<T>, at: nat, x: seq<T>, y: T)
    requires at + |x| < |was|
    ensures Put(was, at, x)[at + |x| := y] == Put(was, at, x + [y])
  {
  }

  /** Storing one stretch after the other. */
  lemma PutPut<T>(was: seq<T>, at: nat, x: seq<T>, y: seq<T>)
    requires at + |x| + |y| <= |was|
    ensures Put(Put(was, at, x), at + |x|, y) == Put(was, at, x + y)
  {
  }

  lemma SliceNext<T>(s: seq<T>, from: nat, j: nat)
    requires from + j < |s|
    ensures s[from..from + j + 1] == s[from..from + j] + [s[from + j]]
  {
  }

  lemma SliceJoin<T>(s: seq<T>, from: nat, m: nat, n: nat)
    requires from + m + n <= |s|
    ensures s[from..from + m] + s[from + m..from + m + n] == s[from..from + m + n]
  {
  }

  /** Replacing element i, when those before it are replaced already. */
  lemma NextDone<T>(done: seq<T>, was: seq<T>, s: seq<T>, i: nat)
    requires |done| == |was| && i < |was| && s == done[..i] + was[i..]
    ensures s[i] == was[i] && s[i := done[i]] == done[..i + 1] + was[i + 1..]
  {
  }
}
