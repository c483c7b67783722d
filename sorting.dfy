/**
 * Stable sorting by a string key: Kotlin's `sortedBy { it.createdAt }`,
 * and the ordering step of the server's message listing.
 */
module Sorting {
  import opened StringOrder

  predicate SortedBy<T>(s: seq<T>, key: T -> string) {
    forall i, j :: 0 <= i < j < |s| ==> LessEq(key(s[i]), key(s[j]))
  }

  /** The elements of `s` whose key is `k`, in their order in `s`. */
  function WithKey<T>(s: seq<T>, key: T -> string, k: string): seq<T> {
    if s == [] then []
    else (if key(s[0]) == k then [s[0]] else []) + WithKey(s[1..], key, k)
  }

  /** `WithKey` on a sequence with a known head. */
  lemma WithKeyCons<T>(x: T, s: seq<T>, key: T -> string, k: string)
    ensures WithKey([x] + s, key, k) == (if key(x) == k then [x] else []) + WithKey(s, key, k)
  {
    var r := [x] + s;
    assert r[0] == x && r[1..] == s;
  }

  lemma {:induction false} WithKeyAppend<T>(a: seq<T>, b: seq<T>, key: T -> string, k: string)
    ensures WithKey(a + b, key, k) == WithKey(a, key, k) + WithKey(b, key, k)
  {
    if a == [] {
      assert a + b == b;
    } else {
      var head := if key(a[0]) == k then [a[0]] else [];
      assert a == [a[0]] + a[1..];
      assert a + b == [a[0]] + (a[1..] + b);
      WithKeyCons(a[0], a[1..] + b, key, k);
      WithKeyCons(a[0], a[1..], key, k);
      WithKeyAppend(a[1..], b, key, k);
      assert head + (WithKey(a[1..], key, k) + WithKey(b, key, k))
          == (head + WithKey(a[1..], key, k)) + WithKey(b, key, k);
    }
  }

  /** No element has key `k` when every key is strictly above `k`. */
  lemma {:induction false} WithKeyAbove<T>(s: seq<T>, key: T -> string, k: string)
    requires forall i :: 0 <= i < |s| ==> Less(k, key(s[i]))
    ensures WithKey(s, key, k) == []
  {
    if s != [] {
      LessIrreflexive(k);
      WithKeyAbove(s[1..], key, k);
    }
  }

  /** Inserts `x` after every element whose key is at most its own. */
  function Insert<T>(s: seq<T>, x: T, key: T -> string): (r: seq<T>)
    ensures |r| == |s| + 1
  {
    if s == [] then [x]
    else if LessEq(key(s[0]), key(x)) then [s[0]] + Insert(s[1..], x, key)
    else [x] + s
  }

  lemma {:induction false} InsertMultiset<T>(s: seq<T>, x: T, key: T -> string)
    ensures multiset(Insert(s, x, key)) == multiset(s) + multiset{x}
  {
    if s != [] && LessEq(key(s[0]), key(x)) {
      InsertMultiset(s[1..], x, key);
      assert s == [s[0]] + s[1..];
    }
  }

  lemma {:induction false} InsertSorted<T>(s: seq<T>, x: T, key: T -> string)
    requires SortedBy(s, key)
    ensures SortedBy(Insert(s, x, key), key)
  {
    if s != [] {
      if LessEq(key(s[0]), key(x)) {
        InsertSorted(s[1..], x, key);
        var r := Insert(s, x, key);
        InsertMultiset(s[1..], x, key);
        forall j | 1 <= j < |r| ensures LessEq(key(s[0]), key(r[j])) {
          assert r[j] in multiset(Insert(s[1..], x, key));
          if r[j] != x {
            assert r[j] in multiset(s[1..]);
            var m :| 0 <= m < |s[1..]| && s[1..][m] == r[j];
            assert s[1 + m] == r[j];
          }
        }
      } else {
        NotLessEq(key(s[0]), key(x));
        forall j | 0 <= j < |s| ensures LessEq(key(x), key(s[j])) {
          LessEqTransitive(key(x), key(s[0]), key(s[j]));
        }
      }
    }
  }

  lemma SortedTail<T>(s: seq<T>, key: T -> string)
    requires s != [] && SortedBy(s, key)
    ensures SortedBy(s[1..], key)
  {
    var t := s[1..];
    forall i, j | 0 <= i < j < |t| ensures LessEq(key(t[i]), key(t[j])) {
      assert t[i] == s[i + 1] && t[j] == s[j + 1];
    }
  }

  /** In a sorted sequence whose head is above `key(x)`, nothing has key `key(x)`. */
  lemma {:induction false} NoneWithSmallerKey<T>(s: seq<T>, x: T, key: T -> string)
    requires s != [] && SortedBy(s, key) && !LessEq(key(s[0]), key(x))
    ensures WithKey(s, key, key(x)) == []
  {
    var k := key(x);
    NotLessEq(key(s[0]), k);
    forall i | 0 <= i < |s| ensures Less(k, key(s[i])) {
      if i > 0 {
        assert LessEq(key(s[0]), key(s[i]));
        if key(s[0]) != key(s[i]) {
          LessTransitive(k, key(s[0]), key(s[i]));
        }
      }
    }
    WithKeyAbove(s, key, k);
  }

  /** Inserting `x` adds it at the end of its own key's run. */
  lemma {:induction false} InsertWithKey<T>(s: seq<T>, x: T, key: T -> string, k: string)
    requires SortedBy(s, key)
    ensures WithKey(Insert(s, x, key), key, k) == WithKey(s, key, k) + (if key(x) == k then [x] else [])
  {
    var tail := if key(x) == k then [x] else [];
    if s == [] {
      WithKeyCons(x, [], key, k);
      assert [x] + [] == [x];
    } else if LessEq(key(s[0]), key(x)) {
      var head := if key(s[0]) == k then [s[0]] else [];
      SortedTail(s, key);
      InsertWithKey(s[1..], x, key, k);
      WithKeyCons(s[0], Insert(s[1..], x, key), key, k);
      WithKeyCons(s[0], s[1..], key, k);
      assert s == [s[0]] + s[1..];
      assert head + (WithKey(s[1..], key, k) + tail) == (head + WithKey(s[1..], key, k)) + tail;
    } else {
      WithKeyCons(x, s, key, k);
      if key(x) == k {
        NoneWithSmallerKey(s, x, key);
      }
    }
  }

  /** Insertion sort; stable because equal keys are inserted after one another. */
  function SortBy<T>(s: seq<T>, key: T -> string): (r: seq<T>)
    ensures |r| == |s|
    ensures SortedBy(r, key)
    decreases |s|
  {
    if s == [] then []
    else
      var t := SortBy(s[..|s| - 1], key);
      InsertSorted(t, s[|s| - 1], key);
      Insert(t, s[|s| - 1], key)
  }

  /** Sorting is a permutation. */
  lemma {:induction false} SortByMultiset<T>(s: seq<T>, key: T -> string)
    ensures multiset(SortBy(s, key)) == multiset(s)
    decreases |s|
  {
    if s != [] {
      SortByMultiset(s[..|s| - 1], key);
      InsertMultiset(SortBy(s[..|s| - 1], key), s[|s| - 1], key);
      assert s == s[..|s| - 1] + [s[|s| - 1]];
    }
  }

  /** Stability: the elements sharing a key keep their relative order. */
  lemma {:induction false} SortByStable<T>(s: seq<T>, key: T -> string, k: string)
    ensures WithKey(SortBy(s, key), key, k) == WithKey(s, key, k)
    decreases |s|
  {
    if s != [] {
      var init, x := s[..|s| - 1], s[|s| - 1];
      SortByStable(init, key, k);
      InsertWithKey(SortBy(init, key), x, key, k);
      assert s == init + [x];
      WithKeyAppend(init, [x], key, k);
      assert WithKey([x], key, k) == (if key(x) == k then [x] else []) + WithKey([x][1..], key, k);
    }
  }
}
