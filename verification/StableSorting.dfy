/**
 The comparison sort of the host language: stable, ascending in a numeric key.
 `StableSort` is one way to compute it; `IsStableSort` says what it is, and the two
 are shown to determine each other.
 */
module StableSorting {
  import opened Prelude

  ghost predicate Ascending<T>(s: seq<T>, key: T -> real) {
    forall i, j | 0 <= i < j < |s| :: key(s[i]) <= key(s[j])
  }

  /** The elements whose key is `k`, in the order in which they stand. */
  function Class<T>(s: seq<T>, key: T -> real, k: real): seq<T> {
    if |s| == 0 then []
    else if key(s[0]) == k then [s[0]] + Class(s[1..], key, k)
    else Class(s[1..], key, k)
  }

  /** `r` is `s` sorted: ascending, and elements with equal keys keep their order. */
  ghost predicate IsStableSort<T>(s: seq<T>, key: T -> real, r: seq<T>) {
    && Ascending(r, key)
    && forall k: real :: Class(r, key, k) == Class(s, key, k)
  }

  function Insert<T>(x: T, s: seq<T>, key: T -> real): seq<T> {
    if |s| == 0 || key(x) <= key(s[0]) then [x] + s
    else [s[0]] + Insert(x, s[1..], key)
  }

  function StableSort<T>(s: seq<T>, key: T -> real): seq<T> {
    if |s| == 0 then [] else Insert(s[0], StableSort(s[1..], key), key)
  }

  lemma {:induction false} InsertPosition<T>(x: T, s: seq<T>, key: T -> real) returns (n: nat)
    requires Ascending(s, key)
    ensures n <= |s| && Insert(x, s, key) == s[..n] + [x] + s[n..]
    ensures forall i | 0 <= i < n :: key(s[i]) < key(x)
    ensures n < |s| ==> key(x) <= key(s[n])
  {
    if |s| == 0 || key(x) <= key(s[0]) {
      n := 0;
    } else {
      var t := s[1..];
      var m := InsertPosition(x, t, key);
      n := m + 1;
      assert s[..n] == [s[0]] + t[..m] && s[n..] == t[m..];
      assert Insert(x, s, key) == [s[0]] + (t[..m] + [x] + t[m..]);
    }
  }

  lemma InsertAt<T>(x: T, s: seq<T>, key: T -> real) returns (n: nat)
    requires Ascending(s, key)
    ensures n <= |s| && Insert(x, s, key) == s[..n] + [x] + s[n..]
    ensures forall i | 0 <= i < n :: key(s[i]) < key(x)
    ensures forall i | n <= i < |s| :: key(x) <= key(s[i])
    ensures Ascending(Insert(x, s, key), key)
  {
    n := InsertPosition(x, s, key);
  }

  lemma {:induction false} ClassConcat<T>(a: seq<T>, b: seq<T>, key: T -> real, k: real)
    ensures Class(a + b, key, k) == Class(a, key, k) + Class(b, key, k)
  {
    if |a| == 0 {
      assert a + b == b;
    } else {
      ClassConcat(a[1..], b, key, k);
      Regroup3([a[0]], a[1..], b);
      Regroup3([a[0]], Class(a[1..], key, k), Class(b, key, k));
      assert [a[0]] + a[1..] == a;
    }
  }

  lemma {:induction false} ClassBelow<T>(s: seq<T>, key: T -> real, k: real)
    requires forall i | 0 <= i < |s| :: key(s[i]) < k
    ensures Class(s, key, k) == []
  {
    if |s| > 0 {
      ClassBelow(s[1..], key, k);
    }
  }

  lemma {:induction false} ClassInsert<T>(x: T, s: seq<T>, key: T -> real, k: real)
    requires Ascending(s, key)
    ensures Class(Insert(x, s, key), key, k) == Class([x] + s, key, k)
  {
    var n := InsertAt(x, s, key);
    ClassAround(s[..n], x, s[n..], key, k);
    assert s == s[..n] + s[n..];
  }

  lemma ClassAround<T>(lo: seq<T>, x: T, hi: seq<T>, key: T -> real, k: real)
    requires forall i | 0 <= i < |lo| :: key(lo[i]) < key(x)
    ensures Class(lo + [x] + hi, key, k) == Class([x] + (lo + hi), key, k)
  {
    Regroup3(lo, [x], hi);
    ClassConcat(lo, [x] + hi, key, k);
    ClassConcat(lo, hi, key, k);
    if key(x) == k {
      ClassBelow(lo, key, k);
    }
  }

  lemma {:induction false} InsertMultiset<T>(x: T, s: seq<T>, key: T -> real)
    ensures multiset(Insert(x, s, key)) == multiset{x} + multiset(s)
    ensures |Insert(x, s, key)| == |s| + 1
  {
    if |s| > 0 && key(x) > key(s[0]) {
      InsertMultiset(x, s[1..], key);
      assert s == [s[0]] + s[1..];
    }
  }

  lemma {:induction false} SortKeepsMultiset<T>(s: seq<T>, key: T -> real)
    ensures multiset(StableSort(s, key)) == multiset(s)
    ensures |StableSort(s, key)| == |s|
  {
    if |s| > 0 {
      SortKeepsMultiset(s[1..], key);
      InsertMultiset(s[0], StableSort(s[1..], key), key);
      assert s == [s[0]] + s[1..];
    }
  }

  lemma ClassSortStep<T>(s: seq<T>, rest: seq<T>, key: T -> real, k: real)
    requires |s| > 0 && Ascending(rest, key) && Class(rest, key, k) == Class(s[1..], key, k)
    ensures Class(Insert(s[0], rest, key), key, k) == Class(s, key, k)
  {
    ClassInsert(s[0], rest, key, k);
  }

  /** The sort is ascending and stable. */
  lemma {:induction false} StableSortIsStable<T>(s: seq<T>, key: T -> real)
    ensures IsStableSort(s, key, StableSort(s, key))
    ensures |StableSort(s, key)| == |s|
    ensures multiset(StableSort(s, key)) == multiset(s)
  {
    SortKeepsMultiset(s, key);
    if |s| > 0 {
      var rest := StableSort(s[1..], key);
      StableSortIsStable(s[1..], key);
      var n := InsertAt(s[0], rest, key);
      forall k: real ensures Class(StableSort(s, key), key, k) == Class(s, key, k) {
        ClassSortStep(s, rest, key, k);
      }
    }
  }

  lemma {:induction false} ClassMember<T>(s: seq<T>, key: T -> real, k: real)
    ensures Class(s, key, k) != [] ==> exists i :: 0 <= i < |s| && key(s[i]) == k
  {
    if |s| > 0 && key(s[0]) != k {
      ClassMember(s[1..], key, k);
      if Class(s[1..], key, k) != [] {
        var i :| 0 <= i < |s[1..]| && key(s[1..][i]) == k;
        assert s[i + 1] == s[1..][i];
      }
    }
  }

  /** Ascending sequences with the same classes are the same sequence. */
  lemma {:induction false} ClassesDetermine<T>(r: seq<T>, q: seq<T>, key: T -> real)
    requires Ascending(r, key) && Ascending(q, key)
    requires forall k: real :: Class(r, key, k) == Class(q, key, k)
    ensures r == q
  {
    if |r| == 0 {
      if |q| > 0 {
        assert false;
      }
    } else {
      assert Class(r, key, key(r[0])) == Class(q, key, key(r[0]));
      ClassMember(q, key, key(r[0]));
      ClassMember(r, key, key(q[0]));
      assert Class(r, key, key(q[0])) == Class(q, key, key(q[0]));
      assert key(r[0]) == key(q[0]);
      assert Class(r, key, key(r[0])) == [r[0]] + Class(r[1..], key, key(r[0]));
      assert Class(q, key, key(r[0])) == [q[0]] + Class(q[1..], key, key(r[0]));
      assert r[0] == Class(r, key, key(r[0]))[0] == Class(q, key, key(r[0]))[0] == q[0];
      forall k: real ensures Class(r[1..], key, k) == Class(q[1..], key, k) {
        assert Class(r, key, k) == Class(q, key, k);
        if key(r[0]) == k {
          assert Class(r, key, k) == [r[0]] + Class(r[1..], key, k);
          assert Class(q, key, k) == [q[0]] + Class(q[1..], key, k);
          assert Class(r[1..], key, k) == Class(r, key, k)[1..] == Class(q, key, k)[1..] == Class(q[1..], key, k);
        } else {
          assert Class(r, key, k) == Class(r[1..], key, k);
          assert Class(q, key, k) == Class(q[1..], key, k);
        }
      }
      ClassesDetermine(r[1..], q[1..], key);
    }
  }

  /** A stable sort is unique, so any other stable algorithm gives the same result. */
  lemma StableSortUnique<T>(s: seq<T>, key: T -> real, r: seq<T>)
    requires IsStableSort(s, key, r)
    ensures r == StableSort(s, key)
  {
    StableSortIsStable(s, key);
    ClassesDetermine(r, StableSort(s, key), key);
  }

  /** Sorting again with one more at the end is sorting everything at once. */
  lemma SortSnoc<T>(s: seq<T>, x: T, key: T -> real)
    ensures StableSort(StableSort(s, key) + [x], key) == StableSort(s + [x], key)
  {
    var sorted := StableSort(s, key);
    var r := StableSort(sorted + [x], key);
    StableSortIsStable(s, key);
    StableSortIsStable(sorted + [x], key);
    forall k: real ensures Class(r, key, k) == Class(s + [x], key, k) {
      assert Class(r, key, k) == Class(sorted + [x], key, k);
      ClassConcat(sorted, [x], key, k);
      ClassConcat(s, [x], key, k);
    }
    StableSortUnique(s + [x], key, r);
  }

  /** How many elements of `s` have a key of at most `k`. */
  function CountAtMost<T>(s: seq<T>, key: T -> real, k: real): nat {
    if |s| == 0 then 0
    else (if key(s[0]) <= k then 1 else 0) + CountAtMost(s[1..], key, k)
  }

  lemma SortWithoutHead<T>(x: T, b: seq<T>, key: T -> real) returns (p: seq<T>, q: seq<T>)
    ensures StableSort([x] + b, key) == p + [x] + q
    ensures StableSort(b, key) == p + q
  {
    assert ([x] + b)[1..] == b;
    StableSortIsStable(b, key);
    var n := InsertAt(x, StableSort(b, key), key);
    p, q := StableSort(b, key)[..n], StableSort(b, key)[n..];
  }

  /**
   Taking one element out of the input takes it out of the output, and everything that
   stands before it with a key no larger stays before it.
   */
  lemma {:induction false} SortWithout<T>(a: seq<T>, x: T, b: seq<T>, key: T -> real) returns (p: seq<T>, q: seq<T>)
    ensures StableSort(a + [x] + b, key) == p + [x] + q
    ensures StableSort(a + b, key) == p + q
    ensures |p| >= CountAtMost(a, key, key(x))
  {
    if |a| == 0 {
      assert a + [x] + b == [x] + b && a + b == b;
      p, q := SortWithoutHead(x, b, key);
    } else {
      var y := a[0];
      assert (a + [x] + b)[1..] == a[1..] + [x] + b && (a + b)[1..] == a[1..] + b;
      var u, v := SortWithout(a[1..], x, b, key);
      StableSortIsStable(a[1..] + [x] + b, key);
      AroundAscending(u, x, v, key);
      if key(y) <= key(x) {
        p := InsertBefore(y, u, x, v, key);
        q := v;
      } else {
        p := u;
        q := InsertAfter(y, u, x, v, key);
      }
    }
  }

  /** Insertion goes exactly between the smaller elements and the rest. */
  lemma {:induction false} InsertBetween<T>(y: T, lo: seq<T>, hi: seq<T>, key: T -> real)
    requires forall i | 0 <= i < |lo| :: key(lo[i]) < key(y)
    requires |hi| > 0 ==> key(y) <= key(hi[0])
    ensures Insert(y, lo + hi, key) == lo + [y] + hi
  {
    if |lo| == 0 {
      assert lo + hi == hi;
    } else {
      assert (lo + hi)[1..] == lo[1..] + hi;
      InsertBetween(y, lo[1..], hi, key);
      assert lo + [y] + hi == [lo[0]] + (lo[1..] + [y] + hi);
    }
  }

  lemma AroundAscending<T>(u: seq<T>, x: T, v: seq<T>, key: T -> real)
    requires Ascending(u + [x] + v, key)
    ensures Ascending(u, key) && Ascending(v, key)
    ensures forall i | 0 <= i < |u| :: key(u[i]) <= key(x)
    ensures |v| > 0 ==> key(x) <= key(v[0])
  {
    var w := u + [x] + v;
    assert w[|u|] == x;
    assert forall i | 0 <= i < |u| :: w[i] == u[i];
    assert forall i | 0 <= i < |v| :: w[|u| + 1 + i] == v[i];
  }

  lemma InsertBefore<T>(y: T, u: seq<T>, x: T, v: seq<T>, key: T -> real) returns (p: seq<T>)
    requires Ascending(u, key) && key(y) <= key(x)
    requires |v| > 0 ==> key(x) <= key(v[0])
    ensures Insert(y, u + [x] + v, key) == p + [x] + v
    ensures Insert(y, u + v, key) == p + v
    ensures |p| == |u| + 1
  {
    var n := InsertAt(y, u, key);
    p := u[..n] + [y] + u[n..];
    InsertInFront(y, u, n, v, key);
    InsertInFront(y, u, n, [x] + v, key);
    assert u + [x] + v == u + ([x] + v) && p + [x] + v == p + ([x] + v);
  }

  lemma Regroup3<T>(a: seq<T>, b: seq<T>, c: seq<T>)
    ensures a + (b + c) == a + b + c
  {
  }

  lemma InsertInFront<T>(y: T, u: seq<T>, n: nat, v: seq<T>, key: T -> real)
    requires n <= |u|
    requires forall i | 0 <= i < n :: key(u[i]) < key(y)
    requires forall i | n <= i < |u| :: key(y) <= key(u[i])
    requires |v| > 0 ==> key(y) <= key(v[0])
    ensures Insert(y, u + v, key) == u[..n] + [y] + u[n..] + v
  {
    var lo, hi := u[..n], u[n..];
    var t := hi + v;
    assert |t| > 0 ==> t[0] == if n < |u| then u[n] else v[0];
    InsertBetween(y, lo, t, key);
    assert lo + hi == u;
    Regroup3(lo, hi, v);
    Regroup3(lo + [y], hi, v);
  }

  lemma InsertAfter<T>(y: T, u: seq<T>, x: T, v: seq<T>, key: T -> real) returns (q: seq<T>)
    requires Ascending(v, key) && key(x) < key(y)
    requires forall i | 0 <= i < |u| :: key(u[i]) <= key(x)
    ensures Insert(y, u + [x] + v, key) == u + [x] + q
    ensures Insert(y, u + v, key) == u + q
  {
    var n := InsertAt(y, v, key);
    q := v[..n] + [y] + v[n..];
    BetweenIn(u + [x], v, y, n, key);
    BetweenIn(u, v, y, n, key);
  }

  lemma BetweenIn<T>(u: seq<T>, v: seq<T>, y: T, n: nat, key: T -> real)
    requires forall i | 0 <= i < |u| :: key(u[i]) < key(y)
    requires n <= |v| && forall i | 0 <= i < n :: key(v[i]) < key(y)
    requires n < |v| ==> key(y) <= key(v[n])
    ensures Insert(y, u + v, key) == u + (v[..n] + [y] + v[n..])
  {
    var lo, hi := v[..n], v[n..];
    assert lo + hi == v;
    InsertBetween(y, u + lo, hi, key);
    Regroup3(u, lo, hi);
  }

  /** Dropping an element that at least `n` earlier ones outrank leaves the first `n` of the sort alone. */
  lemma TakeWithout<T>(a: seq<T>, x: T, b: seq<T>, key: T -> real, n: nat)
    requires CountAtMost(a, key, key(x)) >= n
    ensures Take(StableSort(a + [x] + b, key), n) == Take(StableSort(a + b, key), n)
  {
    var p, q := SortWithout(a, x, b, key);
    assert Take(p + [x] + q, n) == p[..n] == Take(p + q, n);
  }

  /** The head of the sort: no key is smaller, and no earlier element has an equal one. */
  lemma {:induction false} SortHead<T>(s: seq<T>, key: T -> real) returns (n: nat)
    requires |s| > 0
    ensures n < |s| && |StableSort(s, key)| > 0 && StableSort(s, key)[0] == s[n]
    ensures forall i | 0 <= i < |s| :: key(s[n]) <= key(s[i])
    ensures forall i | 0 <= i < n :: key(s[n]) < key(s[i])
  {
    if |s| == 1 {
      n := 0;
    } else {
      var m := SortHead(s[1..], key);
      assert forall i | 1 <= i < |s| :: s[i] == s[1..][i - 1];
      n := if key(s[0]) <= key(s[1..][m]) then 0 else m + 1;
    }
  }
}
