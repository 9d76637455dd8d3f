/** Facts about slices and prefixes of sequences. */
module Slices {

  /** If s[i..] is a + b, then a sits at i and b follows it. */
  lemma SliceSplit<T>(s: seq<T>, i: nat, a: seq<T>, b: seq<T>)
    requires i <= |s| && s[i..] == a + b
    ensures i + |a| <= |s| && s[i + |a|..] == b
    ensures forall k :: 0 <= k < |a| ==> s[i + k] == a[k]
  {
    forall k | 0 <= k < |a|
      ensures s[i + k] == a[k]
    {
      assert s[i + k] == s[i..][k] == (a + b)[k];
    }
    assert s[i + |a|..] == (a + b)[|a|..];
  }

  /** A prefix one longer is the prefix followed by the next element. */
  lemma PrefixStep<T>(s: seq<T>, i: nat)
    requires i < |s|
    ensures s[..i + 1] == s[..i] + [s[i]]
  {
  }

  /** A slice is its first element followed by the rest. */
  lemma SliceCons<T>(s: seq<T>, i: nat, end: nat)
    requires i < end <= |s|
    ensures s[i..end] == [s[i]] + s[i + 1..end]
  {
  }

  /** Elements that match one by one make an equal slice. */
  lemma SliceMatches<T>(s: seq<T>, j: nat, ds: seq<T>)
    requires j + |ds| <= |s| && forall k :: 0 <= k < |ds| ==> s[j + k] == ds[k]
    ensures s[j..j + |ds|] == ds
  {
  }
}
