/** Python's `sorted(xs, key=f, reverse=True)`, which is a stable sort (equal
    keys keep their original order), the `[:k]` slice of it that the
    selection code takes, `sorted(...)[0]` (the first element of maximal
    key) and `max` of a non-empty list. */
module Sorting {
  import opened Text

  /** Insert `x` in front of the first element whose key is not larger than its own. */
  function Insert<T>(x: T, s: seq<T>, key: T -> real): (r: seq<T>)
    ensures |r| == |s| + 1
    ensures multiset(r) == multiset(s) + multiset{x}
  {
    if |s| == 0 then [x]
    else if key(s[0]) <= key(x) then [x] + s
    else
      assert s == [s[0]] + s[1..];
      [s[0]] + Insert(x, s[1..], key)
  }

  /** `sorted(xs, key=key, reverse=True)`: a permutation of `xs`. */
  function SortDesc<T>(xs: seq<T>, key: T -> real): (r: seq<T>)
    ensures |r| == |xs|
    ensures multiset(r) == multiset(xs)
  {
    if |xs| == 0 then []
    else
      assert xs == [xs[0]] + xs[1..];
      Insert(xs[0], SortDesc(xs[1..], key), key)
  }

  ghost predicate SortedDesc<T>(s: seq<T>, key: T -> real)
  {
    forall i, j :: 0 <= i < j < |s| ==> key(s[i]) >= key(s[j])
  }

  /** The elements of `s` whose key is `k`, in order. */
  function WithKey<T>(s: seq<T>, key: T -> real, k: real): (r: seq<T>)
    ensures forall i :: 0 <= i < |r| ==> key(r[i]) == k
  {
    if |s| == 0 then []
    else (if key(s[0]) == k then [s[0]] else []) + WithKey(s[1..], key, k)
  }

  lemma {:induction false} InsertSorted<T>(x: T, s: seq<T>, key: T -> real)
    requires SortedDesc(s, key)
    ensures SortedDesc(Insert(x, s, key), key)
    decreases |s|
  {
    if |s| > 0 && key(s[0]) > key(x) {
      InsertSorted(x, s[1..], key);
      var r := Insert(x, s[1..], key);
      assert forall i :: 0 <= i < |r| ==> r[i] in multiset(s[1..]) + multiset{x};
      forall i | 0 <= i < |r| ensures key(s[0]) >= key(r[i]) {
        assert r[i] in multiset(s[1..]) + multiset{x};
        if r[i] in multiset(s[1..]) {
          var j :| 0 <= j < |s[1..]| && s[1..][j] == r[i];
          assert s[j + 1] == r[i];
        }
      }
    }
  }

  /** The result of the sort is in non-increasing key order. */
  lemma {:induction false} SortDescSorted<T>(xs: seq<T>, key: T -> real)
    ensures SortedDesc(SortDesc(xs, key), key)
    decreases |xs|
  {
    if |xs| > 0 {
      SortDescSorted(xs[1..], key);
      InsertSorted(xs[0], SortDesc(xs[1..], key), key);
    }
  }

  lemma {:induction false} InsertWithKey<T>(x: T, s: seq<T>, key: T -> real, k: real)
    ensures WithKey(Insert(x, s, key), key, k) ==
            (if key(x) == k then [x] else []) + WithKey(s, key, k)
    decreases |s|
  {
    if |s| == 0 {
    } else if key(s[0]) <= key(x) {
      assert ([x] + s)[1..] == s;
    } else {
      InsertWithKey(x, s[1..], key, k);
      assert ([s[0]] + Insert(x, s[1..], key))[1..] == Insert(x, s[1..], key);
    }
  }

  /** Stability: among elements of equal key the sort keeps the original order. */
  lemma {:induction false} SortDescStable<T>(xs: seq<T>, key: T -> real, k: real)
    ensures WithKey(SortDesc(xs, key), key, k) == WithKey(xs, key, k)
    decreases |xs|
  {
    if |xs| > 0 {
      SortDescStable(xs[1..], key, k);
      InsertWithKey(xs[0], SortDesc(xs[1..], key), key, k);
    }
  }

  /** The index of the first element of maximal key. */
  function FirstMaxIndex<T>(xs: seq<T>, key: T -> real): (i: nat)
    requires |xs| > 0
    ensures i < |xs|
    ensures forall j :: 0 <= j < |xs| ==> key(xs[j]) <= key(xs[i])
    ensures forall j :: 0 <= j < i ==> key(xs[j]) < key(xs[i])
    decreases |xs|
  {
    if |xs| == 1 then 0
    else
      var j := FirstMaxIndex(xs[1..], key) + 1;
      if key(xs[0]) >= key(xs[j]) then 0 else j
  }

  /** `sorted(xs, key=key, reverse=True)[0]` is the first element of maximal key. */
  lemma {:induction false} SortDescHead<T>(xs: seq<T>, key: T -> real)
    requires |xs| > 0
    ensures SortDesc(xs, key)[0] == xs[FirstMaxIndex(xs, key)]
    decreases |xs|
  {
    if |xs| > 1 {
      SortDescHead(xs[1..], key);
    }
  }

  /** `sorted(xs, key=key, reverse=True)[:k]` */
  function TopK<T>(xs: seq<T>, key: T -> real, k: int): seq<T>
  {
    PyTake(SortDesc(xs, key), k)
  }

  /** The top-k slice has `k` elements (all of them when `k` reaches the
      length; a negative `k` drops that many from the end), splits the input
      with the rest of the sorted list, and nothing left out outranks
      anything taken. */
  lemma TopKSelects<T>(xs: seq<T>, key: T -> real, k: int)
    ensures var r := TopK(xs, key, k);
            var rest := SortDesc(xs, key)[|r|..];
            && (k >= 0 ==> |r| <= k)
            && (0 <= k <= |xs| ==> |r| == k)
            && (k >= |xs| ==> r == SortDesc(xs, key))
            && (k < 0 ==> |r| == if |xs| + k >= 0 then |xs| + k else 0)
            && multiset(r) + multiset(rest) == multiset(xs)
            && SortedDesc(r, key)
            && (forall a, b :: a in r && b in rest ==> key(a) >= key(b))
  {
    var s := SortDesc(xs, key);
    var r := TopK(xs, key, k);
    SortDescSorted(xs, key);
    assert s == r + s[|r|..];
    forall a, b | a in r && b in s[|r|..] ensures key(a) >= key(b) {
      var i :| 0 <= i < |r| && r[i] == a;
      var j :| 0 <= j < |s[|r|..]| && s[|r|..][j] == b;
      assert s[i] == a && s[|r| + j] == b;
    }
  }

  /** Everything the top-k slice takes is an element of the input. */
  lemma TopKIn<T>(xs: seq<T>, key: T -> real, k: int, e: T)
    requires e in TopK(xs, key, k)
    ensures e in xs
  {
    var r := TopK(xs, key, k);
    TopKSelects(xs, key, k);
    var rest := SortDesc(xs, key)[|r|..];
    assert e in multiset(r);
    assert e in multiset(r) + multiset(rest);
    assert e in multiset(xs);
  }

  lemma {:induction false} WithKeyAppend<T>(a: seq<T>, b: seq<T>, key: T -> real, k: real)
    ensures WithKey(a + b, key, k) == WithKey(a, key, k) + WithKey(b, key, k)
    decreases |a|
  {
    if |a| == 0 {
      assert a + b == b;
    } else {
      WithKeyAppend(a[1..], b, key, k);
      assert (a + b)[1..] == a[1..] + b;
    }
  }

  /** Stability of the top-k slice: of the elements with key `s`, it takes
      the first ones in input order, in that order. */
  lemma TopKStable<T>(xs: seq<T>, key: T -> real, k: int, s: real)
    ensures WithKey(TopK(xs, key, k), key, s) <= WithKey(xs, key, s)
  {
    var sorted := SortDesc(xs, key);
    var r := TopK(xs, key, k);
    assert sorted == r + sorted[|r|..];
    WithKeyAppend(r, sorted[|r|..], key, s);
    SortDescStable(xs, key, s);
  }

  /** No element occurs twice. */
  ghost predicate Distinct<T>(s: seq<T>)
  {
    forall i, j :: 0 <= i < j < |s| ==> s[i] != s[j]
  }

  /** A list has no repeats exactly when it holds every element at most once. */
  lemma DistinctCounts<T>(s: seq<T>)
    ensures Distinct(s) <==> forall x :: multiset(s)[x] <= 1
  {
    if Distinct(s) {
      DistinctAtMostOnce(s);
    } else {
      var i, j :| 0 <= i < j < |s| && s[i] == s[j];
      RepeatCount(s, i, j);
    }
  }

  /** A list without repeats holds every element at most once. */
  lemma {:induction false} DistinctAtMostOnce<T>(s: seq<T>)
    requires Distinct(s)
    ensures forall x :: multiset(s)[x] <= 1
    decreases |s|
  {
    if |s| > 0 {
      var t := s[1..];
      assert Distinct(t) by {
        forall i, j | 0 <= i < j < |t| ensures t[i] != t[j] {
          assert t[i] == s[i + 1] && t[j] == s[j + 1];
        }
      }
      DistinctAtMostOnce(t);
      assert s[0] !in t by {
        forall i | 0 <= i < |t| ensures t[i] != s[0] {
          assert t[i] == s[i + 1];
        }
      }
      assert s == [s[0]] + t;
      assert multiset(s) == multiset{s[0]} + multiset(t);
    }
  }

  /** An element at two positions occurs at least twice. */
  lemma RepeatCount<T>(s: seq<T>, i: nat, j: nat)
    requires i < j < |s| && s[i] == s[j]
    ensures multiset(s)[s[i]] >= 2
  {
    assert s == s[..j] + s[j..];
    assert s[..j][i] == s[i];
    assert s[j..][0] == s[j];
    assert multiset(s)[s[i]] == multiset(s[..j])[s[i]] + multiset(s[j..])[s[i]];
  }

  /** The top-k slice of a list without repeats has none either. */
  lemma TopKDistinct<T>(xs: seq<T>, key: T -> real, k: int)
    requires Distinct(xs)
    ensures Distinct(TopK(xs, key, k))
  {
    var r := TopK(xs, key, k);
    var rest := SortDesc(xs, key)[|r|..];
    TopKSelects(xs, key, k);
    DistinctCounts(xs);
    forall x ensures multiset(r)[x] <= 1 {
      assert multiset(xs)[x] == multiset(r)[x] + multiset(rest)[x];
    }
    DistinctCounts(r);
  }

  /** An element left out of the top-k slice ranks no higher than one taken. */
  lemma TopKBest<T>(xs: seq<T>, key: T -> real, k: int, a: T, b: T)
    requires a in TopK(xs, key, k) && b in xs && b !in TopK(xs, key, k)
    ensures key(b) <= key(a)
  {
    var r := TopK(xs, key, k);
    var rest := SortDesc(xs, key)[|r|..];
    TopKSelects(xs, key, k);
    assert b in multiset(xs);
    assert b in multiset(r) + multiset(rest);
    assert b in multiset(rest);
  }

  /** Python's `max` of a non-empty list of numbers. */
  function Max(xs: seq<real>): (m: real)
    requires |xs| > 0
    ensures m in xs
    ensures forall i :: 0 <= i < |xs| ==> xs[i] <= m
  {
    if |xs| == 1 then xs[0]
    else
      var m' := Max(xs[1..]);
      if xs[0] >= m' then xs[0] else m'
  }
}
