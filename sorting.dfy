/**
 * Python's `sorted(xs, key=k, reverse=True)`: a stable sort into
 * non-increasing key order, in which elements with equal keys keep their
 * input order. Both `Counter.most_common` and the ranking rely on it.
 */
module Sorting {
  import opened Seqs

  /** Non-increasing by `key`. */
  predicate Descending<T>(s: seq<T>, key: T -> real) {
    forall i, j :: 0 <= i < j < |s| ==> key(s[i]) >= key(s[j])
  }

  /** The elements of `s` whose key is `v`, in their order in `s`. */
  function WithKey<T>(s: seq<T>, key: T -> real, v: real): (r: seq<T>)
    ensures |r| <= |s|
  {
    if s == [] then [] else (if key(s[0]) == v then [s[0]] else []) + WithKey(s[1..], key, v)
  }

  /** Puts `x` into the descending `t` after every element whose key is at least `x`'s. */
  function Insert<T>(x: T, t: seq<T>, key: T -> real): (r: seq<T>)
    ensures |r| == |t| + 1
  {
    if t == [] then [x]
    else if key(t[0]) >= key(x) then
      [t[0]] + Insert(x, t[1..], key)
    else [x] + t
  }

  /** `sorted(s, key=key, reverse=True)`, as an insertion sort over `s` from left to right. */
  function SortDesc<T>(s: seq<T>, key: T -> real): (r: seq<T>)
    ensures |r| == |s|
  {
    if s == [] then []
    else Insert(s[|s| - 1], SortDesc(s[..|s| - 1], key), key)
  }

  /** Sorting only rearranges. */
  lemma {:induction false} SortPermutes<T>(s: seq<T>, key: T -> real)
    ensures multiset(SortDesc(s, key)) == multiset(s)
  {
    if s != [] {
      var init, x := s[..|s| - 1], s[|s| - 1];
      SortPermutes(init, key);
      InsertPermutes(x, SortDesc(init, key), key);
      assert s == init + [x];
    }
  }

  /** `Insert` adds `x` and loses nothing. */
  lemma {:induction false} InsertPermutes<T>(x: T, t: seq<T>, key: T -> real)
    ensures multiset(Insert(x, t, key)) == multiset(t) + multiset{x}
  {
    if t != [] && key(t[0]) >= key(x) {
      InsertPermutes(x, t[1..], key);
      assert t == [t[0]] + t[1..];
      assert Insert(x, t, key) == [t[0]] + Insert(x, t[1..], key);
    }
  }

  lemma {:induction false} InsertDescending<T>(x: T, t: seq<T>, key: T -> real)
    requires Descending(t, key)
    ensures Descending(Insert(x, t, key), key)
  {
    if t != [] && key(t[0]) >= key(x) {
      InsertDescending(x, t[1..], key);
      var r := Insert(x, t[1..], key);
      InsertPermutes(x, t[1..], key);
      forall j | 0 <= j < |r| ensures key(t[0]) >= key(r[j]) {
        assert r[j] in multiset(t[1..]) + multiset{x};
        if r[j] in multiset(t[1..]) {
          var k :| 0 <= k < |t[1..]| && t[1..][k] == r[j];
          assert t[k + 1] == r[j];
        }
      }
    }
  }

  /** The result of `SortDesc` is in non-increasing key order. */
  lemma {:induction false} SortDescending<T>(s: seq<T>, key: T -> real)
    ensures Descending(SortDesc(s, key), key)
  {
    if s != [] {
      SortDescending(s[..|s| - 1], key);
      InsertDescending(s[|s| - 1], SortDesc(s[..|s| - 1], key), key);
    }
  }

  lemma {:induction false} WithKeyAppend<T>(a: seq<T>, b: seq<T>, key: T -> real, v: real)
    ensures WithKey(a + b, key, v) == WithKey(a, key, v) + WithKey(b, key, v)
  {
    if a == [] {
      assert a + b == b;
    } else {
      var head := if key(a[0]) == v then [a[0]] else [];
      assert (a + b)[0] == a[0] && (a + b)[1..] == a[1..] + b;
      WithKeyAppend(a[1..], b, key, v);
      calc {
        WithKey(a + b, key, v);
        head + WithKey(a[1..] + b, key, v);
        head + (WithKey(a[1..], key, v) + WithKey(b, key, v));
        (head + WithKey(a[1..], key, v)) + WithKey(b, key, v);
      }
    }
  }

  lemma {:induction false} DescendingTail<T>(t: seq<T>, key: T -> real)
    requires Descending(t, key) && t != []
    ensures Descending(t[1..], key)
  {
    forall i, j | 0 <= i < j < |t| - 1 ensures key(t[1..][i]) >= key(t[1..][j]) {
      assert t[1..][i] == t[i + 1] && t[1..][j] == t[j + 1];
    }
  }

  lemma {:induction false} WithKeyCons<T>(h: T, r: seq<T>, key: T -> real, v: real)
    ensures WithKey([h] + r, key, v) == (if key(h) == v then [h] else []) + WithKey(r, key, v)
  {
    assert ([h] + r)[0] == h && ([h] + r)[1..] == r;
  }

  /** In a descending sequence that starts below `v`, nothing has key `v`. */
  lemma {:induction false} WithKeyBelow<T>(t: seq<T>, key: T -> real, v: real)
    requires Descending(t, key) && t != [] && key(t[0]) < v
    ensures WithKey(t, key, v) == []
  {
    if |t| > 1 {
      DescendingTail(t, key);
      assert key(t[1..][0]) <= key(t[0]);
      WithKeyBelow(t[1..], key, v);
    }
  }

  lemma {:induction false} InsertWithKey<T>(x: T, t: seq<T>, key: T -> real, v: real)
    requires Descending(t, key)
    ensures WithKey(Insert(x, t, key), key, v) == WithKey(t, key, v) + (if key(x) == v then [x] else [])
    decreases |t|, 1
  {
    if t == [] {
      WithKeyCons(x, [], key, v);
      assert [x] + [] == [x];
    } else if key(t[0]) >= key(x) {
      InsertWithKeyPast(x, t, key, v);
    } else {
      assert Insert(x, t, key) == [x] + t;
      WithKeyCons(x, t, key, v);
      if key(x) == v {
        WithKeyBelow(t, key, v);
      }
    }
  }

  /** The case of `InsertWithKey` where `x` goes past the first element of `t`. */
  lemma {:induction false} InsertWithKeyPast<T>(x: T, t: seq<T>, key: T -> real, v: real)
    requires Descending(t, key) && t != [] && key(t[0]) >= key(x)
    ensures WithKey(Insert(x, t, key), key, v) == WithKey(t, key, v) + (if key(x) == v then [x] else [])
    decreases |t|, 0
  {
    var r := Insert(x, t[1..], key);
    var head, tail := (if key(t[0]) == v then [t[0]] else []), (if key(x) == v then [x] else []);
    DescendingTail(t, key);
    calc {
      WithKey(Insert(x, t, key), key, v);
      { assert Insert(x, t, key) == [t[0]] + r; }
      WithKey([t[0]] + r, key, v);
      { WithKeyCons(t[0], r, key, v); }
      head + WithKey(r, key, v);
      { InsertWithKey(x, t[1..], key, v); }
      head + (WithKey(t[1..], key, v) + tail);
      (head + WithKey(t[1..], key, v)) + tail;
      { WithKeyCons(t[0], t[1..], key, v); assert t == [t[0]] + t[1..]; }
      WithKey(t, key, v) + tail;
    }
  }

  lemma {:induction false} WithKeySnoc<T>(init: seq<T>, x: T, key: T -> real, v: real)
    ensures WithKey(init + [x], key, v) == WithKey(init, key, v) + (if key(x) == v then [x] else [])
  {
    WithKeyAppend(init, [x], key, v);
    assert [x][1..] == [];
  }

  /**
   * Stability: for every key value, the elements carrying it appear in the
   * sorted result in the same order as in the input.
   */
  lemma {:induction false} SortStable<T>(s: seq<T>, key: T -> real, v: real)
    ensures WithKey(SortDesc(s, key), key, v) == WithKey(s, key, v)
  {
    if s != [] {
      var init, x := s[..|s| - 1], s[|s| - 1];
      SortStable(init, key, v);
      SortDescending(init, key);
      InsertWithKey(x, SortDesc(init, key), key, v);
      WithKeySnoc(init, x, key, v);
      assert s == init + [x];
    }
  }

  /** Elements of `s` with equal keys are related by `R` in the order they appear. */
  predicate TiesOrdered<T>(s: seq<T>, key: T -> real, R: (T, T) -> bool) {
    forall i, j :: 0 <= i < j < |s| && key(s[i]) == key(s[j]) ==> R(s[i], s[j])
  }

  lemma {:induction false} TiesOrderedTail<T>(t: seq<T>, key: T -> real, R: (T, T) -> bool)
    requires TiesOrdered(t, key, R) && t != []
    ensures TiesOrdered(t[1..], key, R)
  {
    forall i, j | 0 <= i < j < |t| - 1 && key(t[1..][i]) == key(t[1..][j]) ensures R(t[1..][i], t[1..][j]) {
      assert t[1..][i] == t[i + 1] && t[1..][j] == t[j + 1];
    }
  }

  lemma {:induction false} TiesOrderedCons<T>(h: T, rest: seq<T>, key: T -> real, R: (T, T) -> bool)
    requires TiesOrdered(rest, key, R)
    requires forall j :: 0 <= j < |rest| && key(rest[j]) == key(h) ==> R(h, rest[j])
    ensures TiesOrdered([h] + rest, key, R)
  {
    var r := [h] + rest;
    forall i, j | 0 <= i < j < |r| && key(r[i]) == key(r[j]) ensures R(r[i], r[j]) {
      assert r[j] == rest[j - 1];
      if i > 0 {
        assert r[i] == rest[i - 1];
      }
    }
  }

  lemma {:induction false} InsertTiesOrdered<T>(x: T, t: seq<T>, key: T -> real, R: (T, T) -> bool)
    requires Descending(t, key) && TiesOrdered(t, key, R)
    requires forall y :: y in t && key(y) == key(x) ==> R(y, x)
    ensures TiesOrdered(Insert(x, t, key), key, R)
    decreases |t|, 1
  {
    if t == [] {
      assert Insert(x, t, key) == [x];
    } else if key(t[0]) >= key(x) {
      InsertTiesOrderedPast(x, t, key, R);
    } else {
      forall j | 0 <= j < |t| ensures key(t[j]) < key(x) {
        if j > 0 {
          assert key(t[0]) >= key(t[j]);
        }
      }
      TiesOrderedCons(x, t, key, R);
    }
  }

  /** The case of `InsertTiesOrdered` where `x` goes past the first element of `t`. */
  lemma {:induction false} InsertTiesOrderedPast<T>(x: T, t: seq<T>, key: T -> real, R: (T, T) -> bool)
    requires Descending(t, key) && TiesOrdered(t, key, R) && t != [] && key(t[0]) >= key(x)
    requires forall y :: y in t && key(y) == key(x) ==> R(y, x)
    ensures TiesOrdered(Insert(x, t, key), key, R)
    decreases |t|, 0
  {
    var rest := Insert(x, t[1..], key);
    DescendingTail(t, key);
    TiesOrderedTail(t, key, R);
    forall y | y in t[1..] && key(y) == key(x) ensures R(y, x) {
      assert y in t;
    }
    InsertTiesOrdered(x, t[1..], key, R);
    InsertPermutes(x, t[1..], key);
    forall j | 0 <= j < |rest| && key(rest[j]) == key(t[0]) ensures R(t[0], rest[j]) {
      assert rest[j] in multiset(t[1..]) + multiset{x};
      if rest[j] != x {
        var k :| 0 <= k < |t[1..]| && t[1..][k] == rest[j];
        assert t[k + 1] == rest[j];
      } else {
        assert t[0] in t;
      }
    }
    TiesOrderedCons(t[0], rest, key, R);
    assert Insert(x, t, key) == [t[0]] + rest;
  }

  /**
   * Stability in pairwise form: whatever order relation the input respects
   * between equal-key elements, the sorted result respects as well.
   */
  lemma {:induction false} SortTiesOrdered<T>(s: seq<T>, key: T -> real, R: (T, T) -> bool)
    requires TiesOrdered(s, key, R)
    ensures TiesOrdered(SortDesc(s, key), key, R)
  {
    if s != [] {
      var init, x := s[..|s| - 1], s[|s| - 1];
      var sorted := SortDesc(init, key);
      assert TiesOrdered(init, key, R) by {
        forall i, j | 0 <= i < j < |init| && key(init[i]) == key(init[j]) ensures R(init[i], init[j]) {
          assert init[i] == s[i] && init[j] == s[j];
        }
      }
      SortTiesOrdered(init, key, R);
      SortDescending(init, key);
      SortPermutes(init, key);
      forall y | y in sorted && key(y) == key(x) ensures R(y, x) {
        assert y in multiset(init);
        var k :| 0 <= k < |init| && init[k] == y;
        assert s[k] == y;
      }
      InsertTiesOrdered(x, sorted, key, R);
    }
  }

  lemma {:induction false} InsertNoDup<T>(x: T, t: seq<T>, key: T -> real)
    requires NoDup(t) && x !in t
    ensures NoDup(Insert(x, t, key))
  {
    if t != [] && key(t[0]) >= key(x) {
      var rest := Insert(x, t[1..], key);
      InsertPermutes(x, t[1..], key);
      InsertNoDup(x, t[1..], key);
      var r := [t[0]] + rest;
      assert Insert(x, t, key) == r;
      assert t[0] !in multiset(t[1..]) + multiset{x};
      forall i, j | 0 <= i < j < |r| ensures r[i] != r[j] {
        assert r[j] == rest[j - 1];
        if i > 0 {
          assert r[i] == rest[i - 1];
        } else {
          assert r[j] in multiset(rest);
        }
      }
    }
  }

  /** Sorting rearranges, so a duplicate-free input gives a duplicate-free result. */
  lemma {:induction false} SortNoDup<T>(s: seq<T>, key: T -> real)
    requires NoDup(s)
    ensures NoDup(SortDesc(s, key))
  {
    if s != [] {
      var init, x := s[..|s| - 1], s[|s| - 1];
      SortNoDup(init, key);
      SortPermutes(init, key);
      assert x !in multiset(SortDesc(init, key));
      InsertNoDup(x, SortDesc(init, key), key);
    }
  }

  lemma {:induction false} InsertAtEnd<T>(x: T, t: seq<T>, key: T -> real)
    requires Descending(t, key) && (t == [] || key(t[|t| - 1]) >= key(x))
    ensures Insert(x, t, key) == t + [x]
  {
    if t != [] {
      assert key(t[0]) >= key(t[|t| - 1]);
      DescendingTail(t, key);
      assert t[1..] == [] || t[1..][|t[1..]| - 1] == t[|t| - 1];
      InsertAtEnd(x, t[1..], key);
      assert Insert(x, t, key) == [t[0]] + (t[1..] + [x]);
      assert t == [t[0]] + t[1..];
    }
  }

  /** A sequence already in non-increasing key order is its own sort. */
  lemma {:induction false} SortDescIdentity<T>(s: seq<T>, key: T -> real)
    requires Descending(s, key)
    ensures SortDesc(s, key) == s
  {
    if s != [] {
      var init := s[..|s| - 1];
      SortDescIdentity(init, key);
      InsertAtEnd(s[|s| - 1], init, key);
    }
  }
}
