/**
 * `collections.Counter(xs).most_common(n)`. A `Counter` keeps its keys in
 * the order they were first seen, and `most_common` sorts them by count,
 * largest first, with a stable sort; so ties go to the element that
 * appeared first in `xs`.
 */
module Counting {
  import opened Seqs
  import opened Sorting

  /** The position of the first occurrence of `x` in `s`. */
  function FirstIndex<T(==)>(s: seq<T>, x: T): (i: nat)
    requires x in s
    ensures i < |s| && s[i] == x && forall j :: 0 <= j < i ==> s[j] != x
  {
    if s[0] == x then 0 else 1 + FirstIndex(s[1..], x)
  }

  /** The distinct elements of `s` in order of first appearance: the keys of `Counter(s)`. */
  function Distinct<T(==)>(s: seq<T>): seq<T> {
    if s == [] then []
    else
      var init, last := s[..|s| - 1], s[|s| - 1];
      assert s == init + [last];
      var d := Distinct(init);
      if last in d then d else d + [last]
  }

  /** How often `x` occurs in `s`. */
  function Count<T(==)>(s: seq<T>, x: T): nat {
    multiset(s)[x]
  }

  /**
   * The tie rule of `most_common`: `x` comes before `y` when it occurs more
   * often, or equally often and first appeared earlier.
   */
  predicate RanksBefore<T(==)>(s: seq<T>, x: T, y: T)
    requires x in s && y in s
  {
    Count(s, x) > Count(s, y) || (Count(s, x) == Count(s, y) && FirstIndex(s, x) < FirstIndex(s, y))
  }

  /** Every distinct element of `s`, most frequent first: `Counter(s).most_common()`. */
  function Ranked<T(==)>(s: seq<T>): seq<T> {
    SortDesc(Distinct(s), x => Count(s, x) as real)
  }

  /** `[k for k, _ in Counter(s).most_common(n)]`: the first `n` of the full ranking. */
  function MostCommon<T(==)>(s: seq<T>, n: nat): (r: seq<T>)
    ensures |r| <= n && |r| <= |Ranked(s)| && r == Ranked(s)[..|r|]
  {
    var d := Ranked(s);
    d[..if n < |d| then n else |d|]
  }

  lemma {:induction false} FirstIndexExtend<T>(init: seq<T>, last: T, x: T)
    requires x in init
    ensures FirstIndex(init + [last], x) == FirstIndex(init, x)
  {
    var s := init + [last];
    var k := FirstIndex(init, x);
    assert s[k] == x;
  }

  /** `Distinct` lists each element once, in order of first appearance. */
  lemma {:induction false} DistinctOrder<T>(s: seq<T>)
    ensures forall x :: x in Distinct(s) ==> x in s
    ensures forall x :: x in s ==> x in Distinct(s)
    ensures NoDup(Distinct(s))
    ensures forall i, j :: 0 <= i < j < |Distinct(s)| ==> FirstIndex(s, Distinct(s)[i]) < FirstIndex(s, Distinct(s)[j])
  {
    if s != [] {
      var init, last := s[..|s| - 1], s[|s| - 1];
      assert s == init + [last];
      var d := Distinct(init);
      DistinctOrder(init);
      forall x | x in init ensures FirstIndex(s, x) == FirstIndex(init, x) {
        FirstIndexExtend(init, last, x);
      }
      if last !in d {
        assert last !in init;
        var i := FirstIndex(s, last);
        assert i == |s| - 1;
      }
    }
  }

  /** `Ranked(s)` holds the distinct elements of `s`, each once. */
  lemma {:induction false} RankedMembers<T>(s: seq<T>)
    ensures forall x :: x in Ranked(s) ==> x in s
    ensures forall x :: x in s ==> x in Ranked(s)
    ensures NoDup(Ranked(s)) && |Ranked(s)| == |Distinct(s)|
  {
    var d := Distinct(s);
    var r := Ranked(s);
    DistinctOrder(s);
    SortPermutes(d, x => Count(s, x) as real);
    forall x | x in r ensures x in s {
      assert x in multiset(d);
    }
    forall x | x in s ensures x in r {
      assert x in multiset(d);
    }
    SortNoDup(d, x => Count(s, x) as real);
  }

  /** `Ranked(s)` is in strictly decreasing rank: by count, ties by first appearance. */
  lemma {:induction false} RankedOrder<T>(s: seq<T>)
    ensures forall i, j :: 0 <= i < j < |Ranked(s)| ==> Ranked(s)[i] in s && Ranked(s)[j] in s && RanksBefore(s, Ranked(s)[i], Ranked(s)[j])
  {
    var key := x => Count(s, x) as real;
    var first := (x: T, y: T) => x in s && y in s && FirstIndex(s, x) < FirstIndex(s, y);
    var d := Distinct(s);
    var r := Ranked(s);
    DistinctOrder(s);
    RankedMembers(s);
    SortDescending(d, key);
    assert TiesOrdered(d, key, first);
    SortTiesOrdered(d, key, first);
    forall i, j | 0 <= i < j < |r| ensures r[i] in s && r[j] in s && RanksBefore(s, r[i], r[j]) {
      assert r[i] in r && r[j] in r;
      assert key(r[i]) >= key(r[j]);
      assert key(r[i]) == key(r[j]) ==> first(r[i], r[j]);
    }
  }

  /**
   * `most_common(n)` keeps the `min(n, #distinct)` best-ranked distinct
   * elements, in rank order, and every element left out ranks after every
   * element kept.
   */
  lemma {:induction false} MostCommonSpec<T>(s: seq<T>, n: nat)
    ensures |MostCommon(s, n)| == if n < |Distinct(s)| then n else |Distinct(s)|
    ensures NoDup(MostCommon(s, n))
    ensures forall x :: x in MostCommon(s, n) ==> x in s
    ensures forall i, j :: 0 <= i < j < |MostCommon(s, n)| ==> RanksBefore(s, MostCommon(s, n)[i], MostCommon(s, n)[j])
    ensures forall x, i :: x in s && x !in MostCommon(s, n) && 0 <= i < |MostCommon(s, n)| ==>
                           RanksBefore(s, MostCommon(s, n)[i], x)
  {
    var d := Ranked(s);
    var r := MostCommon(s, n);
    RankedMembers(s);
    RankedOrder(s);
    forall i | 0 <= i < |r| ensures r[i] == d[i] && r[i] in s {
      assert d[i] in d;
    }
    MostCommonLeftOut(s, n);
  }

  lemma {:induction false} MostCommonLeftOut<T>(s: seq<T>, n: nat)
    ensures var r := MostCommon(s, n);
            forall x, i :: x in s && x !in r && 0 <= i < |r| ==> r[i] in s && RanksBefore(s, r[i], x)
  {
    var d := Ranked(s);
    var r := MostCommon(s, n);
    RankedMembers(s);
    RankedOrder(s);
    forall x, i | x in s && x !in r && 0 <= i < |r| ensures r[i] in s && RanksBefore(s, r[i], x) {
      assert x in d;
      var k :| 0 <= k < |d| && d[k] == x;
      assert r[i] == d[i];
    }
  }

  /**
   * `most_common(1)[0][0]` of a non-empty list: an element occurring at least
   * as often as any other, and the first to appear among those occurring
   * equally often.
   */
  lemma {:induction false} MostFrequent<T>(s: seq<T>)
    requires |s| > 0
    ensures var r := MostCommon(s, 1);
            && |r| == 1 && r[0] in s
            && forall y :: y in s ==> Count(s, y) < Count(s, r[0])
                                      || (Count(s, y) == Count(s, r[0]) && FirstIndex(s, r[0]) <= FirstIndex(s, y))
  {
    var r := MostCommon(s, 1);
    DistinctOrder(s);
    assert s[0] in Distinct(s);
    MostCommonSpec(s, 1);
    assert |r| == 1;
    var top := r[0];
    assert top in r;
    forall y | y in s ensures Count(s, y) < Count(s, top) || (Count(s, y) == Count(s, top) && FirstIndex(s, top) <= FirstIndex(s, y)) {
      if y != top {
        assert y !in r;
        assert RanksBefore(s, r[0], y);
      }
    }
  }
}
