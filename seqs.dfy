/** Small facts about sequences used by the materializer and the ranking. */
module Seqs {

  /** The index of the last element satisfying `P`, or -1 when there is none (like `str.rfind`). */
  function LastHit<T>(s: seq<T>, P: T -> bool): (k: int)
    ensures -1 <= k < |s|
    ensures k >= 0 ==> P(s[k]) && forall j :: k < j < |s| ==> !P(s[j])
    ensures k < 0 ==> forall j :: 0 <= j < |s| ==> !P(s[j])
  {
    if s == [] then -1
    else if P(s[|s| - 1]) then |s| - 1
    else LastHit(s[..|s| - 1], P)
  }

  /**
   * The positions of `s` whose element satisfies `P`, in increasing order:
   * the indices a filtering loop over `s` keeps.
   */
  function Hits<T>(s: seq<T>, P: T -> bool): (ix: seq<nat>)
    ensures forall j :: 0 <= j < |ix| ==> ix[j] < |s| && P(s[ix[j]])
    ensures forall j, k :: 0 <= j < k < |ix| ==> ix[j] < ix[k]
    ensures forall i :: 0 <= i < |s| && P(s[i]) ==> i in ix
  {
    if s == [] then []
    else
      var n := |s| - 1;
      var pre := Hits(s[..n], P);
      assert forall j :: 0 <= j < |pre| ==> s[..n][pre[j]] == s[pre[j]];
      assert forall i :: 0 <= i < n ==> s[..n][i] == s[i];
      pre + (if P(s[n]) then [n] else [])
  }

  /** No element occurs twice. */
  predicate NoDup<T(==)>(s: seq<T>) {
    forall i, j :: 0 <= i < j < |s| ==> s[i] != s[j]
  }

  /** Python's `s[:k]`: a negative `k` counts from the end. */
  function SliceTo<T>(s: seq<T>, k: int): (r: seq<T>)
    ensures |r| <= |s| && r == s[..|r|]
    ensures k >= 0 ==> |r| == if k < |s| then k else |s|
    ensures k < 0 ==> |r| == if |s| + k > 0 then |s| + k else 0
  {
    if k >= 0 then (if k < |s| then s[..k] else s)
    else if |s| + k > 0 then s[..|s| + k]
    else []
  }
}
