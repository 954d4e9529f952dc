/**
 * `int(np.percentile(xs, 25))` and `int(np.percentile(xs, 75))` over a list
 * of integers, with numpy's default "linear" method: sort ascending, go to
 * the virtual index `q * (n - 1)` and interpolate between its two
 * neighbours, then let `int()` truncate toward zero. Both quantiles are
 * multiples of a quarter, so the whole computation is exact in integers:
 * everything below is four times the interpolated value.
 */
module Quantiles {
  import opened Sorting

  predicate Ascending(s: seq<int>) {
    forall i, j :: 0 <= i < j < |s| ==> s[i] <= s[j]
  }

  /** `sorted(s)`: the stable descending sort on the negated values. */
  function SortAsc(s: seq<int>): (r: seq<int>)
    ensures |r| == |s| && multiset(r) == multiset(s)
  {
    SortPermutes(s, x => -(x as real));
    SortDesc(s, x => -(x as real))
  }

  lemma {:induction false} SortAscending(s: seq<int>)
    ensures Ascending(SortAsc(s))
  {
    SortDescending(s, x => -(x as real));
  }

  /** `int(x / 4)`: Python's `int()` of a float truncates toward zero. */
  function TruncQuarter(x: int): (r: int)
    ensures x >= 0 ==> 4 * r <= x < 4 * r + 4
    ensures x < 0 ==> 4 * r - 4 < x <= 4 * r
  {
    if x >= 0 then x / 4 else -((-x) / 4)
  }

  /**
   * Four times the linear interpolation of the ascending `s` at the virtual
   * index `t / 4`: `s[k] + (t % 4) / 4 * (s[k + 1] - s[k])` for `k = t / 4`.
   */
  function Quarters(s: seq<int>, t: nat): int
    requires |s| > 0 && t <= 4 * (|s| - 1)
  {
    var k, r := t / 4, t % 4;
    if r == 0 then 4 * s[k] else 4 * s[k] + r * (s[k + 1] - s[k])
  }

  /**
   * `int(np.percentile(s, 25 * q))`, for `q` quarters: the 0th percentile is
   * the smallest value and the 100th the largest.
   */
  function Percentile(s: seq<int>, q: nat): (r: int)
    requires |s| > 0 && q <= 4
    ensures q == 0 ==> r == SortAsc(s)[0]
    ensures q == 4 ==> r == SortAsc(s)[|s| - 1]
  {
    QuartersEnds(SortAsc(s));
    TruncQuarter(Quarters(SortAsc(s), q * (|s| - 1)))
  }

  function Min(s: seq<int>): (m: int)
    requires |s| > 0
    ensures m in s && forall x :: x in s ==> m <= x
  {
    if |s| == 1 then s[0]
    else
      var m := Min(s[1..]);
      assert forall x :: x in s ==> x == s[0] || x in s[1..];
      if s[0] <= m then s[0] else m
  }

  function Max(s: seq<int>): (m: int)
    requires |s| > 0
    ensures m in s && forall x :: x in s ==> x <= m
  {
    if |s| == 1 then s[0]
    else
      var m := Max(s[1..]);
      assert forall x :: x in s ==> x == s[0] || x in s[1..];
      if s[0] >= m then s[0] else m
  }

  /** One quarter step further along an ascending sequence never goes down. */
  lemma {:induction false} QuartersStep(s: seq<int>, t: nat)
    requires |s| > 0 && Ascending(s) && t + 1 <= 4 * (|s| - 1)
    ensures Quarters(s, t) <= Quarters(s, t + 1)
  {
    var k, r := t / 4, t % 4;
    assert s[k] <= s[k + 1];
    if r == 3 {
      assert (t + 1) / 4 == k + 1 && (t + 1) % 4 == 0;
    } else {
      assert (t + 1) / 4 == k && (t + 1) % 4 == r + 1;
    }
  }

  lemma {:induction false} QuartersMonotone(s: seq<int>, t: nat, u: nat)
    requires |s| > 0 && Ascending(s) && t <= u <= 4 * (|s| - 1)
    ensures Quarters(s, t) <= Quarters(s, u)
    decreases u - t
  {
    if t < u {
      QuartersStep(s, t);
      QuartersMonotone(s, t + 1, u);
    }
  }

  lemma {:induction false} TruncQuarterMonotone(x: int, y: int)
    requires x <= y
    ensures TruncQuarter(x) <= TruncQuarter(y)
  {
  }

  /** Truncating a value between four times `lo` and four times `hi` gives a value between `lo` and `hi`. */
  lemma {:induction false} TruncQuarterBetween(lo: int, v: int, hi: int)
    requires 4 * lo <= v <= 4 * hi
    ensures lo <= TruncQuarter(v) <= hi
  {
  }

  /** The first element of the sorted sequence is the smallest value. */
  lemma {:induction false} SortedFirst(s: seq<int>)
    requires |s| > 0
    ensures SortAsc(s)[0] == Min(s)
  {
    var a := SortAsc(s);
    var m := Min(s);
    assert m in multiset(s);
    assert m in a;
    var i :| 0 <= i < |a| && a[i] == m;
    SortAscending(s);
    assert a[0] <= a[i];
    assert a[0] in multiset(s);
    assert a[0] in s;
  }

  /** The last element of the sorted sequence is the largest value. */
  lemma {:induction false} SortedLast(s: seq<int>)
    requires |s| > 0
    ensures SortAsc(s)[|s| - 1] == Max(s)
  {
    var a := SortAsc(s);
    var m := Max(s);
    assert m in multiset(s);
    assert m in a;
    var i :| 0 <= i < |a| && a[i] == m;
    SortAscending(s);
    assert a[i] <= a[|a| - 1];
    assert a[|a| - 1] in multiset(s);
    assert a[|a| - 1] in s;
  }

  lemma {:induction false} QuartersEnds(s: seq<int>)
    requires |s| > 0
    ensures Quarters(s, 0) == 4 * s[0] && Quarters(s, 4 * (|s| - 1)) == 4 * s[|s| - 1]
  {
    var t := 4 * (|s| - 1);
    assert t / 4 == |s| - 1 && t % 4 == 0;
  }

  /** Interpolating anywhere along an ascending sequence stays between its ends. */
  lemma {:induction false} QuartersBounds(a: seq<int>, t: nat)
    requires |a| > 0 && Ascending(a) && t <= 4 * (|a| - 1)
    ensures 4 * a[0] <= Quarters(a, t) <= 4 * a[|a| - 1]
  {
    QuartersEnds(a);
    QuartersMonotone(a, 0, t);
    QuartersMonotone(a, t, 4 * (|a| - 1));
  }

  lemma {:induction false} ScaleMonotone(q: nat, q': nat, m: nat)
    requires q <= q'
    ensures q * m <= q' * m
  {
    assert (q' - q) * m >= 0;
  }

  /** Every percentile lies between the smallest and the largest value. */
  lemma {:induction false} PercentileBounds(s: seq<int>, q: nat)
    requires |s| > 0 && q <= 4
    ensures Min(s) <= Percentile(s, q) <= Max(s)
  {
    var a := SortAsc(s);
    var n := |s|;
    var t := q * (n - 1);
    ScaleMonotone(q, 4, n - 1);
    SortAscending(s);
    SortedFirst(s);
    SortedLast(s);
    var v := Quarters(a, t);
    QuartersBounds(a, t);
    TruncQuarterBetween(a[0], v, a[n - 1]);
    assert Min(s) <= TruncQuarter(v) <= Max(s);
    assert Percentile(s, q) == TruncQuarter(v);
  }

  /** A lower quantile never exceeds a higher one: `wordcount_min <= wordcount_max`. */
  lemma {:induction false} PercentileMonotone(s: seq<int>, q: nat, q': nat)
    requires |s| > 0 && q <= q' <= 4
    ensures Percentile(s, q) <= Percentile(s, q')
  {
    var n := |s|;
    var a := SortAsc(s);
    SortAscending(s);
    ScaleMonotone(q, q', n - 1);
    QuartersMonotone(a, q * (n - 1), q' * (n - 1));
    TruncQuarterMonotone(Quarters(a, q * (n - 1)), Quarters(a, q' * (n - 1)));
  }

  /** The quartiles of `[100, 200, 300, 400]` are 175 and 325. */
  lemma {:induction false} QuartilesExample()
    ensures Percentile([100, 200, 300, 400], 1) == 175
    ensures Percentile([100, 200, 300, 400], 3) == 325
  {
    var s := [100, 200, 300, 400];
    assert Ascending(s);
    SortedIsIdentity(s);
    assert |s| - 1 == 3;
    assert Quarters(s, 3) == 700 by {
      assert 3 / 4 == 0 && 3 % 4 == 3;
    }
    assert Quarters(s, 9) == 1300 by {
      assert 9 / 4 == 2 && 9 % 4 == 1;
    }
  }

  /** `int()` truncates toward zero: the lower quartile of `[-5, -2]` is `int(-4.25) == -4`. */
  lemma {:induction false} TruncationExample()
    ensures Percentile([-5, -2], 1) == -4
  {
    SortedIsIdentity([-5, -2]);
  }

  /** Sorting an ascending sequence leaves it as it is. */
  lemma {:induction false} SortedIsIdentity(s: seq<int>)
    requires Ascending(s)
    ensures SortAsc(s) == s
  {
    SortDescIdentity(s, x => -(x as real));
  }
}
