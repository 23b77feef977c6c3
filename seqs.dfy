/** Facts about slices of sequences. */
module Seqs {

  lemma SplitLast<T>(s: seq<T>)
    requires s != []
    ensures s == s[..|s| - 1] + [s[|s| - 1]]
  {
  }

  /** A slice of a slice is a slice of the whole. */
  lemma SliceOfSlice<T>(s: seq<T>, a: nat, b: nat, c: nat, d: nat)
    requires a <= b <= |s| && c <= d <= b - a
    ensures s[a..b][c..d] == s[a + c..a + d]
  {
    var l, r := s[a..b][c..d], s[a + c..a + d];
    assert |l| == |r|;
    forall k | 0 <= k < |l| ensures l[k] == r[k] { }
  }

  /** A suffix of a prefix is a slice. */
  lemma SuffixOfPrefix<T>(s: seq<T>, a: nat, b: nat)
    requires a <= b <= |s|
    ensures s[..b][a..] == s[a..b]
  {
    var l, r := s[..b][a..], s[a..b];
    assert |l| == |r|;
    forall k | 0 <= k < |l| ensures l[k] == r[k] { }
  }

  /** A window of a suffix of a prefix is a slice of the whole. */
  lemma WindowOfPrefix<T>(s: seq<T>, b: int, a: int, e: int)
    requires 0 <= a <= e <= b <= |s|
    ensures s[..b][a..][..e - a] == s[a..e]
  {
    var l, r := s[..b][a..][..e - a], s[a..e];
    assert |l| == |r|;
    forall k | 0 <= k < |l| ensures l[k] == r[k] { }
  }
}
