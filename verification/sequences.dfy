/** Small facts about sequence slicing and concatenation, stated once so
    that the proofs using them stay small. */
module Sequences {
  lemma ConcatAssoc<T>(a: seq<T>, b: seq<T>, c: seq<T>)
    ensures a + b + c == a + (b + c)
  {
  }

  /** A prefix of a non-empty sequence is its head followed by a prefix of its tail. */
  lemma PrefixCons<T>(s: seq<T>, k: nat)
    requires 0 < k <= |s|
    ensures s[..k] == [s[0]] + s[1..][..k - 1]
  {
  }

  /** Dropping `e > 0` elements drops the head and `e - 1` elements of the tail. */
  lemma SuffixCons<T>(s: seq<T>, e: nat)
    requires 0 < e <= |s|
    ensures s[e..] == s[1..][e - 1..]
  {
  }

  /** Splicing `x` into a non-empty sequence past its head is splicing it
      into the tail and putting the head back. */
  lemma ConsSplice<T>(s: seq<T>, k: nat, e: nat, x: T)
    requires k <= e < |s|
    ensures [s[0]] + (s[1..][..k] + [x] + s[1..][e..]) == s[..k + 1] + [x] + s[e + 1..]
  {
    PrefixCons(s, k + 1);
    SuffixCons(s, e + 1);
    ConcatAssoc([s[0]], s[1..][..k], [x]);
    ConcatAssoc([s[0]], s[1..][..k] + [x], s[1..][e..]);
  }
}
