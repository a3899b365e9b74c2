/** A stable sort of a sequence by an integer key, standing for
    `Array.prototype.sort` with a comparator of the form
    `(a, b) => key(a) - key(b)` (stable since ES2019). */
module Sorting {
  import Common

  ghost predicate SortedBy<T>(s: seq<T>, key: T -> int) {
    forall i, j :: 0 <= i < j < |s| ==> key(s[i]) <= key(s[j])
  }

  /** x put in front of the first element whose key is not below its own. */
  function Insert<T>(x: T, s: seq<T>, key: T -> int): (r: seq<T>)
    ensures |r| == |s| + 1
    ensures multiset(r) == multiset(s) + multiset{x}
  {
    if s == [] || key(x) <= key(s[0]) then [x] + s
    else
      assert s == [s[0]] + s[1..];
      [s[0]] + Insert(x, s[1..], key)
  }

  lemma {:induction false} InsertSorted<T>(x: T, s: seq<T>, key: T -> int)
    requires SortedBy(s, key)
    ensures SortedBy(Insert(x, s, key), key)
  {
    if s != [] && key(x) > key(s[0]) {
      var tail := s[1..];
      forall i, j | 0 <= i < j < |tail| ensures key(tail[i]) <= key(tail[j]) {
        assert tail[i] == s[i + 1] && tail[j] == s[j + 1];
      }
      forall j | 0 <= j < |tail| ensures key(s[0]) <= key(tail[j]) {
        assert tail[j] == s[j + 1];
      }
      var rest := Insert(x, tail, key);
      InsertSorted(x, tail, key);
      InsertAbove(x, tail, key, key(s[0]));
      var r := Insert(x, s, key);
      assert r == [s[0]] + rest;
      forall i, j | 0 <= i < j < |r| ensures key(r[i]) <= key(r[j]) {
        assert r[j] == rest[j - 1];
        if i > 0 {
          assert r[i] == rest[i - 1];
        }
      }
    }
  }

  /** A bound below x and every element of s stays below every element
      after the insertion. */
  lemma {:induction false} InsertAbove<T>(x: T, s: seq<T>, key: T -> int, b: int)
    requires b <= key(x)
    requires forall j :: 0 <= j < |s| ==> b <= key(s[j])
    ensures forall j :: 0 <= j < |Insert(x, s, key)| ==> b <= key(Insert(x, s, key)[j])
  {
    if s != [] && key(x) > key(s[0]) {
      InsertAbove(x, s[1..], key, b);
      assert Insert(x, s, key) == [s[0]] + Insert(x, s[1..], key);
    }
  }

  /** The elements of s in ascending key order: a permutation of s. */
  function SortByKey<T>(s: seq<T>, key: T -> int): (r: seq<T>)
    ensures |r| == |s|
    ensures multiset(r) == multiset(s)
  {
    if s == [] then []
    else
      assert s == [s[0]] + s[1..];
      Insert(s[0], SortByKey(s[1..], key), key)
  }

  lemma {:induction false} SortByKeySorted<T>(s: seq<T>, key: T -> int)
    ensures SortedBy(SortByKey(s, key), key)
  {
    if s != [] {
      SortByKeySorted(s[1..], key);
      InsertSorted(s[0], SortByKey(s[1..], key), key);
    }
  }

  /** The elements whose key is c. */
  function KeyIs<T>(key: T -> int, c: int): T -> bool {
    (x: T) => key(x) == c
  }

  /** Every element that x is put behind has a smaller key, so among the
      elements with x's key, x comes first; the others keep their order. */
  lemma {:induction false} InsertKeepsEqualKeyOrder<T>(x: T, s: seq<T>, key: T -> int, c: int)
    ensures Common.Filter(Insert(x, s, key), KeyIs(key, c))
            == (if key(x) == c then [x] else []) + Common.Filter(s, KeyIs(key, c))
  {
    if s == [] || key(x) <= key(s[0]) {
      assert ([x] + s)[1..] == s;
    } else {
      InsertKeepsEqualKeyOrder(x, s[1..], key, c);
      var r := Insert(x, s, key);
      assert r[0] == s[0] && r[1..] == Insert(x, s[1..], key);
    }
  }

  /** Stability: the elements with any one key appear after sorting in
      the order they had before. */
  lemma {:induction false} SortByKeyStable<T>(s: seq<T>, key: T -> int, c: int)
    ensures Common.Filter(SortByKey(s, key), KeyIs(key, c)) == Common.Filter(s, KeyIs(key, c))
  {
    if s != [] {
      SortByKeyStable(s[1..], key, c);
      InsertKeepsEqualKeyOrder(s[0], SortByKey(s[1..], key), key, c);
    }
  }

  /** In a sorted sequence no element after position n has a smaller key
      than one before it. */
  lemma PrefixKeysAtMostRest<T>(s: seq<T>, n: nat, key: T -> int)
    requires SortedBy(s, key) && n <= |s|
    ensures forall x, y :: x in multiset(s) - multiset(s[..n]) && y in s[..n] ==> key(y) <= key(x)
  {
    assert s == s[..n] + s[n..];
    assert multiset(s) - multiset(s[..n]) == multiset(s[n..]);
    forall x, y | x in multiset(s) - multiset(s[..n]) && y in s[..n] ensures key(y) <= key(x) {
      assert x in s[n..];
      var a :| 0 <= a < |s[n..]| && s[n..][a] == x;
      var b :| 0 <= b < n && s[..n][b] == y;
      assert s[b] == y && s[n + a] == x;
    }
  }

  /** The first n elements after sorting: n elements of s in key order, and
      none of the others has a smaller key than one of them. */
  lemma SortedPrefix<T>(s: seq<T>, n: nat, key: T -> int)
    requires n <= |s|
    ensures var r := SortByKey(s, key)[..n];
      && multiset(r) <= multiset(s)
      && (forall i, j :: 0 <= i < j < |r| ==> key(r[i]) <= key(r[j]))
      && (forall x, y :: x in multiset(s) - multiset(r) && y in r ==> key(y) <= key(x))
  {
    var sorted := SortByKey(s, key);
    SortByKeySorted(s, key);
    PrefixKeysAtMostRest(sorted, n, key);
    assert sorted == sorted[..n] + sorted[n..];
    assert multiset(sorted) == multiset(sorted[..n]) + multiset(sorted[n..]);
  }
}
