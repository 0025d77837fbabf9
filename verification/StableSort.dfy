/** Python's `sorted(s, key=...)`: a stable sort, written out as insertion from the right. */
module StableSort {
  function Insert<T>(x: T, s: seq<T>, key: T -> int): (r: seq<T>)
    ensures |r| == |s| + 1
    ensures r[0] == if s == [] || key(x) <= key(s[0]) then x else s[0]
  {
    if s == [] || key(x) <= key(s[0]) then [x] + s else [s[0]] + Insert(x, s[1..], key)
  }

  function Sort<T>(s: seq<T>, key: T -> int): (r: seq<T>)
    ensures |r| == |s|
  {
    if s == [] then [] else Insert(s[0], Sort(s[1..], key), key)
  }

  /** The elements whose key is `k`, in order. */
  function WithKey<T>(s: seq<T>, key: T -> int, k: int): seq<T> {
    if s == [] then [] else (if key(s[0]) == k then [s[0]] else []) + WithKey(s[1..], key, k)
  }

  ghost predicate Sorted<T>(s: seq<T>, key: T -> int) {
    forall i, j :: 0 <= i < j < |s| ==> key(s[i]) <= key(s[j])
  }

  /** `r` lists the elements of `s` by key, and equal keys keep their order: what "stable sort" means. */
  ghost predicate StablySorts<T>(r: seq<T>, s: seq<T>, key: T -> int) {
    && Sorted(r, key)
    && forall k :: WithKey(r, key, k) == WithKey(s, key, k)
  }

  /** Index `i` holds the leftmost element of least key. */
  ghost predicate LeftmostMinimum<T>(s: seq<T>, key: T -> int, i: int) {
    && 0 <= i < |s|
    && (forall j :: 0 <= j < |s| ==> key(s[i]) <= key(s[j]))
    && (forall j :: 0 <= j < i ==> key(s[i]) < key(s[j]))
  }

  lemma {:induction false} InsertPermutes<T>(x: T, s: seq<T>, key: T -> int)
    ensures multiset(Insert(x, s, key)) == multiset{x} + multiset(s)
  {
    if s != [] && key(x) > key(s[0]) {
      InsertPermutes(x, s[1..], key);
      assert s == [s[0]] + s[1..];
    }
  }

  lemma {:induction false} InsertSorted<T>(x: T, s: seq<T>, key: T -> int)
    requires Sorted(s, key)
    ensures Sorted(Insert(x, s, key), key)
  {
    if s != [] && key(x) > key(s[0]) {
      var t := Insert(x, s[1..], key);
      InsertSorted(x, s[1..], key);
      InsertPermutes(x, s[1..], key);
      forall i | 0 <= i < |t| ensures key(s[0]) <= key(t[i]) {
        assert t[i] in multiset(t);
        assert t[i] == x || t[i] in s[1..];
      }
    }
  }

  lemma {:induction false} InsertWithKey<T>(x: T, s: seq<T>, key: T -> int, k: int)
    ensures WithKey(Insert(x, s, key), key, k) == WithKey([x] + s, key, k)
  {
    assert ([x] + s)[1..] == s;
    if s != [] && key(x) > key(s[0]) {
      InsertWithKey(x, s[1..], key, k);
      assert ([x] + s[1..])[1..] == s[1..];
      assert Insert(x, s, key)[1..] == Insert(x, s[1..], key);
    }
  }

  /** The insertion sort is a stable sort. */
  lemma {:induction false} SortStable<T>(s: seq<T>, key: T -> int)
    ensures StablySorts(Sort(s, key), s, key)
    ensures multiset(Sort(s, key)) == multiset(s)
  {
    if s != [] {
      assert s == [s[0]] + s[1..];
      var t := Sort(s[1..], key);
      SortStable(s[1..], key);
      InsertPermutes(s[0], t, key);
      InsertSorted(s[0], t, key);
      forall k ensures WithKey(Sort(s, key), key, k) == WithKey(s, key, k) {
        InsertWithKey(s[0], t, key, k);
        assert ([s[0]] + t)[1..] == t;
      }
    }
  }

  lemma {:induction false} WithKeyMember<T>(s: seq<T>, key: T -> int, k: int, i: nat)
    requires i < |s| && key(s[i]) == k
    ensures WithKey(s, key, k) != []
  {
    if i > 0 { WithKeyMember(s[1..], key, k, i - 1); }
  }

  lemma {:induction false} WithKeyOnly<T>(s: seq<T>, key: T -> int, k: int)
    requires WithKey(s, key, k) != []
    ensures exists i :: 0 <= i < |s| && key(s[i]) == k
  {
    if key(s[0]) != k {
      WithKeyOnly(s[1..], key, k);
      var i :| 0 <= i < |s[1..]| && key(s[1..][i]) == k;
      assert key(s[i + 1]) == k;
    }
  }

  lemma SomeKey<T>(s: seq<T>, key: T -> int)
    ensures s != [] ==> exists k :: WithKey(s, key, k) != []
  {
    if s != [] {
      assert WithKey(s, key, key(s[0])) != [];
    }
  }

  /** There is only one stable sort: any other algorithm returns the same list. */
  lemma {:induction false} StableSortUnique<T>(a: seq<T>, b: seq<T>, key: T -> int)
    requires Sorted(a, key) && Sorted(b, key)
    requires forall k :: WithKey(a, key, k) == WithKey(b, key, k)
    ensures a == b
  {
    SomeKey(a, key);
    SomeKey(b, key);
    if a != [] && b != [] {
      WithKeyMember(a, key, key(a[0]), 0);
      WithKeyOnly(b, key, key(a[0]));
      WithKeyMember(b, key, key(b[0]), 0);
      WithKeyOnly(a, key, key(b[0]));
      var k := key(a[0]);
      assert key(b[0]) == k;
      assert WithKey(a, key, k)[0] == a[0] && WithKey(b, key, k)[0] == b[0];
      forall j ensures WithKey(a[1..], key, j) == WithKey(b[1..], key, j) {
        assert WithKey(a, key, j) == WithKey(b, key, j);
        var n := if j == k then 1 else 0;
        assert WithKey(a[1..], key, j) == WithKey(a, key, j)[n..];
        assert WithKey(b[1..], key, j) == WithKey(b, key, j)[n..];
      }
      StableSortUnique(a[1..], b[1..], key);
    }
  }

  /** `sorted(s, key)[0]` is the leftmost element of least key. */
  lemma {:induction false} SortHead<T>(s: seq<T>, key: T -> int) returns (i: nat)
    requires s != []
    ensures LeftmostMinimum(s, key, i) && Sort(s, key)[0] == s[i]
  {
    if |s| == 1 {
      i := 0;
    } else {
      var j := SortHead(s[1..], key);
      i := if key(s[0]) <= key(s[1..][j]) then 0 else j + 1;
      forall m | 0 <= m < |s| ensures key(s[i]) <= key(s[m]) {
        if m > 0 { assert s[m] == s[1..][m - 1]; }
      }
      forall m | 0 <= m < i ensures key(s[i]) < key(s[m]) {
        if m > 0 { assert s[m] == s[1..][m - 1]; }
      }
    }
  }
}
