/** Facts about sequences that need no knowledge of their elements. */
module Seqs {
  /** Appending the element at `n` to an empty slice, or to one that ends at `n`. */
  lemma ExtendSlice<T>(s: seq<T>, a: nat, c: nat, n: nat)
    requires a <= c <= n < |s| && (a == c || c == n)
    ensures s[a..c] + [s[n]] == s[if a == c then n else a..n + 1]
  {
  }

  lemma TakeTake<T>(s: seq<T>, i: nat, n: nat)
    requires i <= n <= |s|
    ensures s[..n][..i] == s[..i]
  {
  }

  lemma TakeSlice<T>(s: seq<T>, n: nat, a: nat, c: nat)
    requires a <= c <= n <= |s|
    ensures s[..n][a..c] == s[a..c]
  {
  }

  lemma SliceTake<T>(s: seq<T>, a: nat, c: nat, n: nat)
    requires a <= c <= |s| && n <= c - a
    ensures s[a..c][..n] == s[a..a + n]
  {
  }

  lemma MiddleSlice<T>(a: seq<T>, b: seq<T>, c: seq<T>, i: nat, j: nat)
    requires i <= j <= |b|
    ensures (a + b + c)[|a| + i..|a| + j] == b[i..j]
  {
  }

  /** `w` stands in `s` at place `at`. */
  ghost predicate StandsAt<T>(s: seq<T>, at: nat, w: seq<T>) {
    at + |w| <= |s| && s[at..at + |w|] == w
  }

  lemma ThreeParts<T>(s: seq<T>, at: nat, a: seq<T>, b: seq<T>, c: seq<T>)
    requires StandsAt(s, at, a + b + c)
    ensures StandsAt(s, at + |a|, b) && StandsAt(s, at + |a| + |b|, c)
  {
    var w := s[at..at + |a + b + c|];
    forall k | 0 <= k < |w| ensures s[at + k] == w[k] {
    }
    assert w[|a|..|a| + |b|] == b && w[|a| + |b|..|a| + |b| + |c|] == c;
    SliceFrom(s, at, w, |a|, |a| + |b|);
    SliceFrom(s, at, w, |a| + |b|, |a| + |b| + |c|);
  }

  lemma SliceFrom<T>(s: seq<T>, at: nat, w: seq<T>, i: nat, j: nat)
    requires i <= j <= |w| && at + |w| <= |s| && forall k :: 0 <= k < |w| ==> s[at + k] == w[k]
    ensures s[at + i..at + j] == w[i..j]
  {
    forall k | 0 <= k < j - i ensures s[at + i..at + j][k] == w[i..j][k] {
      assert s[at + (i + k)] == w[i + k];
    }
  }
}
