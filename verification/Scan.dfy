/** Sequences: linear search, the shape of every scan in the source, and mapping. */
module Scan {
  /** The first index of `s`, from `i` on, whose element satisfies `p`; -1 if none. */
  function FirstIndex<T>(s: seq<T>, p: T -> bool, i: nat := 0): (r: int)
    requires i <= |s|
    ensures r == -1 || i <= r < |s|
    ensures r == -1 ==> forall k | i <= k < |s| :: !p(s[k])
    ensures r >= 0 ==> p(s[r]) && forall k | i <= k < r :: !p(s[k])
    decreases |s| - i
  {
    if i == |s| then -1 else if p(s[i]) then i else FirstIndex(s, p, i + 1)
  }

  function MapSeq<T, U>(f: T -> U, xs: seq<T>): (r: seq<U>)
    ensures |r| == |xs| && forall i | 0 <= i < |xs| :: r[i] == f(xs[i])
  {
    seq(|xs|, i requires 0 <= i < |xs| => f(xs[i]))
  }
}
