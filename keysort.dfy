/** Python's `list.sort(key=..., reverse=True)` on string keys: a stable
    sort, newest (greatest key) first, elements with equal keys kept in
    their original order. */
module KeySort {
  import opened Text

  /** `a < b` in Python's string order. */
  predicate LexLt(a: string, b: string) {
    LexLe(a, b) && a != b
  }

  /** Keys never increase along the sequence. */
  ghost predicate SortedDesc<T>(s: seq<T>, key: T -> string) {
    forall i, j :: 0 <= i < j < |s| ==> LexLe(key(s[j]), key(s[i]))
  }

  /** Inserts `x`, which came later in the input than everything in `s`,
      after every element whose key is not smaller. */
  function InsertDesc<T>(s: seq<T>, x: T, key: T -> string): (r: seq<T>)
    ensures |r| == |s| + 1
    ensures multiset(r) == multiset(s) + multiset{x}
  {
    if s == [] then [x]
    else if LexLt(key(s[0]), key(x)) then [x] + s
    else
      assert s == [s[0]] + s[1..];
      [s[0]] + InsertDesc(s[1..], x, key)
  }

  /** The sort, by insertion of each element in input order. */
  function SortDesc<T>(s: seq<T>, key: T -> string): (r: seq<T>)
    ensures |r| == |s|
    ensures multiset(r) == multiset(s)
  {
    if s == [] then []
    else
      assert s == s[..|s| - 1] + [s[|s| - 1]];
      InsertDesc(SortDesc(s[..|s| - 1], key), s[|s| - 1], key)
  }

  lemma {:induction false} InsertDescSorted<T>(s: seq<T>, x: T, key: T -> string)
    requires SortedDesc(s, key)
    ensures SortedDesc(InsertDesc(s, x, key), key)
    decreases |s|
  {
    if s == [] {
    } else if LexLt(key(s[0]), key(x)) {
      forall j | 0 < j < |s| ensures LexLe(key(s[j]), key(x)) {
        LexLeTrans(key(s[j]), key(s[0]), key(x));
      }
    } else {
      InsertDescSorted(s[1..], x, key);
      var r := InsertDesc(s[1..], x, key);
      LexLeTotal(key(x), key(s[0]));
      LexLeRefl(key(x));
      forall k | 0 <= k < |r| ensures LexLe(key(r[k]), key(s[0])) {
        assert r[k] in multiset(r);
        if r[k] != x {
          assert r[k] in multiset(s[1..]);
          var m :| 0 <= m < |s[1..]| && s[1..][m] == r[k];
          assert s[1..][m] == s[m + 1];
        }
      }
    }
  }

  /** The result is ordered by key, greatest first, and holds exactly the
      input's elements (the multiset postcondition of `SortDesc`). */
  lemma {:induction false} SortDescSorted<T>(s: seq<T>, key: T -> string)
    ensures SortedDesc(SortDesc(s, key), key)
  {
    if s != [] {
      SortDescSorted(s[..|s| - 1], key);
      InsertDescSorted(SortDesc(s[..|s| - 1], key), s[|s| - 1], key);
    }
  }

  lemma {:induction false} InsertDescAtEnd<T>(s: seq<T>, x: T, key: T -> string)
    requires forall y :: y in s ==> LexLe(key(x), key(y))
    ensures InsertDesc(s, x, key) == s + [x]
    decreases |s|
  {
    if s != [] {
      assert s[0] in s;
      InsertDescAtEnd(s[1..], x, key);
      assert s == [s[0]] + s[1..];
      if LexLt(key(s[0]), key(x)) {
        LexLeAntisym(key(s[0]), key(x));
      }
    }
  }

  /** A list already in order, ties included, comes back unchanged. */
  lemma {:induction false} SortDescOfSorted<T>(s: seq<T>, key: T -> string)
    requires SortedDesc(s, key)
    ensures SortDesc(s, key) == s
  {
    if s != [] {
      var n := |s| - 1;
      assert SortedDesc(s[..n], key);
      SortDescOfSorted(s[..n], key);
      forall y | y in s[..n] ensures LexLe(key(s[n]), key(y)) {
        var k :| 0 <= k < n && s[..n][k] == y;
      }
      InsertDescAtEnd(s[..n], s[n], key);
      assert s[..n] + [s[n]] == s;
    }
  }

  /** The elements whose key is `k`, in their order in `s`. */
  function WithKey<T>(s: seq<T>, key: T -> string, k: string): seq<T> {
    if s == [] then []
    else (if key(s[0]) == k then [s[0]] else []) + WithKey(s[1..], key, k)
  }

  lemma WithKeyCons<T>(x: T, r: seq<T>, key: T -> string, k: string)
    ensures WithKey([x] + r, key, k) == (if key(x) == k then [x] else []) + WithKey(r, key, k)
  {
    assert ([x] + r)[0] == x && ([x] + r)[1..] == r;
  }

  lemma {:induction false} WithKeyAppend<T>(a: seq<T>, b: seq<T>, key: T -> string, k: string)
    ensures WithKey(a + b, key, k) == WithKey(a, key, k) + WithKey(b, key, k)
    decreases |a|
  {
    if a != [] {
      assert a + b == [a[0]] + (a[1..] + b);
      WithKeyCons(a[0], a[1..] + b, key, k);
      WithKeyAppend(a[1..], b, key, k);
    } else {
      assert a + b == b;
    }
  }

  lemma {:induction false} WithKeyNone<T>(s: seq<T>, key: T -> string, k: string)
    requires forall y :: y in s ==> key(y) != k
    ensures WithKey(s, key, k) == []
    decreases |s|
  {
    if s != [] {
      assert s[0] in s;
      WithKeyNone(s[1..], key, k);
    }
  }

  /** In an ordered list headed by a key smaller than `x`'s, no element
      has `x`'s key. */
  lemma BelowKey<T>(s: seq<T>, x: T, key: T -> string)
    requires SortedDesc(s, key) && s != [] && LexLt(key(s[0]), key(x))
    ensures forall y :: y in s ==> key(y) != key(x)
  {
    forall y | y in s ensures key(y) != key(x) {
      var i :| 0 <= i < |s| && s[i] == y;
      if i > 0 && key(y) == key(x) {
        LexLeAntisym(key(s[0]), key(x));
      }
    }
  }

  /** Where `x` goes in front, no element of `s` shares its key. */
  lemma InsertFrontWithKey<T>(s: seq<T>, x: T, key: T -> string, k: string)
    requires SortedDesc(s, key) && s != [] && LexLt(key(s[0]), key(x))
    ensures WithKey([x] + s, key, k) == WithKey(s, key, k) + (if key(x) == k then [x] else [])
  {
    BelowKey(s, x, key);
    if key(x) == k {
      WithKeyNone(s, key, k);
    }
    WithKeyCons(x, s, key, k);
  }

  /** Where `x` goes past the head, the head keeps its place in front. */
  lemma InsertPastWithKey<T>(h: T, t: seq<T>, r: seq<T>, x: T, key: T -> string, k: string)
    requires WithKey(r, key, k) == WithKey(t, key, k) + (if key(x) == k then [x] else [])
    ensures WithKey([h] + r, key, k) == WithKey([h] + t, key, k) + (if key(x) == k then [x] else [])
  {
    WithKeyCons(h, r, key, k);
    WithKeyCons(h, t, key, k);
  }

  /** Inserting into an ordered list puts `x` after every element of equal
      key, so each key's elements keep their order, `x` last. */
  lemma {:induction false} InsertDescWithKey<T>(s: seq<T>, x: T, key: T -> string, k: string)
    requires SortedDesc(s, key)
    ensures WithKey(InsertDesc(s, x, key), key, k) == WithKey(s, key, k) + (if key(x) == k then [x] else [])
    decreases |s|
  {
    if s == [] {
      WithKeyCons(x, [], key, k);
    } else if LexLt(key(s[0]), key(x)) {
      InsertFrontWithKey(s, x, key, k);
    } else {
      var t := s[1..];
      assert SortedDesc(t, key);
      InsertDescWithKey(t, x, key, k);
      InsertPastWithKey(s[0], t, InsertDesc(t, x, key), x, key, k);
      assert s == [s[0]] + t;
    }
  }

  lemma InsertIntoSortedWithKey<T>(init: seq<T>, last: T, key: T -> string, k: string)
    ensures WithKey(InsertDesc(SortDesc(init, key), last, key), key, k)
      == WithKey(SortDesc(init, key), key, k) + (if key(last) == k then [last] else [])
  {
    SortDescSorted(init, key);
    InsertDescWithKey(SortDesc(init, key), last, key, k);
  }

  /** Sorting one more element adds it after the sorted elements of its key. */
  lemma SortDescLastWithKey<T>(s: seq<T>, key: T -> string, k: string)
    requires s != []
    ensures WithKey(SortDesc(s, key), key, k)
      == WithKey(SortDesc(s[..|s| - 1], key), key, k) + (if key(s[|s| - 1]) == k then [s[|s| - 1]] else [])
  {
    InsertIntoSortedWithKey(s[..|s| - 1], s[|s| - 1], key, k);
  }

  lemma WithKeySnoc<T>(s: seq<T>, key: T -> string, k: string)
    requires s != []
    ensures WithKey(s, key, k) == WithKey(s[..|s| - 1], key, k) + (if key(s[|s| - 1]) == k then [s[|s| - 1]] else [])
  {
    var n := |s| - 1;
    WithKeyAppend(s[..n], [s[n]], key, k);
    WithKeyCons(s[n], [], key, k);
    assert s[..n] + [s[n]] == s;
  }

  /** The sort is stable: for every key, the elements with that key appear
      in the result in their input order. */
  lemma {:induction false} SortDescStable<T>(s: seq<T>, key: T -> string, k: string)
    ensures WithKey(SortDesc(s, key), key, k) == WithKey(s, key, k)
  {
    if s != [] {
      SortDescStable(s[..|s| - 1], key, k);
      SortDescLastWithKey(s, key, k);
      WithKeySnoc(s, key, k);
    }
  }

  /** Of the elements sharing a key, `[:n]` of the sorted list keeps the
      ones that came first in the input. */
  lemma TopByKeyTies<T>(s: seq<T>, key: T -> string, n: int, k: string)
    requires n >= 0
    ensures var kept := WithKey(PrefixSlice(SortDesc(s, key), n), key, k);
      |kept| <= |WithKey(s, key, k)| && kept == WithKey(s, key, k)[..|kept|]
  {
    var sorted := SortDesc(s, key);
    var p := PrefixSlice(sorted, n);
    assert p + sorted[|p|..] == sorted;
    WithKeyAppend(p, sorted[|p|..], key, k);
    SortDescStable(s, key, k);
  }

  /** Keeping the first `n` of the sorted list (`[:n]`, n >= 0) keeps the
      greatest keys: no dropped element has a greater key than a kept one,
      and every kept element is an input element. */
  lemma TopByKey<T>(s: seq<T>, key: T -> string, n: int)
    requires n >= 0
    ensures var kept := PrefixSlice(SortDesc(s, key), n);
      && |kept| == (if n <= |s| then n else |s|)
      && SortedDesc(kept, key)
      && (forall x :: x in kept ==> x in s)
      && (forall i, j :: 0 <= i < |kept| <= j < |s| ==> LexLe(key(SortDesc(s, key)[j]), key(kept[i])))
  {
    var sorted := SortDesc(s, key);
    SortDescSorted(s, key);
    var kept := PrefixSlice(sorted, n);
    forall x | x in kept ensures x in s {
      var k :| 0 <= k < |kept| && kept[k] == x;
      assert sorted[k] == x;
      assert x in multiset(sorted);
    }
    forall i, j | 0 <= i < |kept| <= j < |s| ensures LexLe(key(sorted[j]), key(kept[i])) {
      assert kept[i] == sorted[i];
    }
  }
}
