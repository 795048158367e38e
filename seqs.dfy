/** Order facts about sequences used to state what the selections keep. */
module Seqs {

  /** `r` can be obtained from `s` by deleting elements, keeping the order. */
  ghost predicate IsSubsequence<T>(r: seq<T>, s: seq<T>)
    decreases |s|
  {
    if r == [] then true
    else if s == [] then false
    else (r[0] == s[0] && IsSubsequence(r[1..], s[1..])) || IsSubsequence(r, s[1..])
  }

  /** No element occurs twice. */
  ghost predicate Distinct<T>(s: seq<T>) {
    forall i, j :: 0 <= i < j < |s| ==> s[i] != s[j]
  }

  /** Every element of a subsequence is an element of the whole. */
  lemma {:induction false} SubsequenceIn<T>(r: seq<T>, s: seq<T>, x: T)
    requires IsSubsequence(r, s) && x in r
    ensures x in s
    decreases |s|
  {
    if r[0] == s[0] && IsSubsequence(r[1..], s[1..]) {
      if x != r[0] {
        SubsequenceIn(r[1..], s[1..], x);
      }
    } else {
      SubsequenceIn(r, s[1..], x);
    }
  }

  /** A subsequence of a sequence without repetitions has none either. */
  lemma {:induction false} SubsequenceDistinct<T>(r: seq<T>, s: seq<T>)
    requires IsSubsequence(r, s) && Distinct(s)
    ensures Distinct(r)
    decreases |s|
  {
    if r == [] {
    } else if r[0] == s[0] && IsSubsequence(r[1..], s[1..]) {
      SubsequenceDistinct(r[1..], s[1..]);
      forall j | 0 < j < |r|
        ensures r[0] != r[j]
      {
        SubsequenceIn(r[1..], s[1..], r[j]);
      }
    } else {
      SubsequenceDistinct(r, s[1..]);
    }
  }
}
