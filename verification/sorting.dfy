/** Python's `sorted` and `list.sort` (stable) for the two kinds of key the scripts sort by. */
module Sorting {

  /** Python's `<=` on strings: lexicographic by code point. */
  predicate StrLe(a: string, b: string)
  {
    a == [] || (b != [] && (a[0] < b[0] || (a[0] == b[0] && StrLe(a[1..], b[1..]))))
  }

  lemma {:induction false} StrLeTotal(a: string, b: string)
    ensures StrLe(a, b) || StrLe(b, a)
  {
    if a != [] && b != [] && a[0] == b[0] {
      StrLeTotal(a[1..], b[1..]);
    }
  }

  lemma {:induction false} StrLeTrans(a: string, b: string, c: string)
    requires StrLe(a, b) && StrLe(b, c)
    ensures StrLe(a, c)
  {
    if a != [] && b != [] && c != [] && a[0] == b[0] == c[0] {
      StrLeTrans(a[1..], b[1..], c[1..]);
    }
  }

  /** Sorted by `key`, as adjacent pairs. */
  predicate SortedByName<T>(s: seq<T>, key: T -> string)
  {
    forall i :: 0 < i < |s| ==> StrLe(key(s[i - 1]), key(s[i]))
  }

  function InsertByName<T>(x: T, s: seq<T>, key: T -> string): (r: seq<T>)
    requires SortedByName(s, key)
    ensures SortedByName(r, key)
    ensures multiset(r) == multiset(s) + multiset{x}
    ensures |r| == |s| + 1 && (r[0] == x || (s != [] && r[0] == s[0]))
  {
    if s == [] then [x]
    else if StrLe(key(x), key(s[0])) && key(x) != key(s[0]) then [x] + s
    else
      StrLeTotal(key(x), key(s[0]));
      var t := InsertByName(x, s[1..], key);
      assert multiset(s) == multiset{s[0]} + multiset(s[1..]) by { assert s == [s[0]] + s[1..]; }
      [s[0]] + t
  }

  /** `sorted(s, key=key)` for string keys. */
  function SortByName<T>(s: seq<T>, key: T -> string): (r: seq<T>)
    ensures SortedByName(r, key)
    ensures multiset(r) == multiset(s) && |r| == |s|
  {
    if s == [] then []
    else
      var r := InsertByName(s[|s| - 1], SortByName(s[..|s| - 1], key), key);
      assert s == s[..|s| - 1] + [s[|s| - 1]];
      r
  }

  /** The elements of `s` whose key is `k`, in order. */
  function WithKey<T>(s: seq<T>, key: T -> int, k: int): seq<T>
  {
    if s == [] then [] else (if key(s[0]) == k then [s[0]] else []) + WithKey(s[1..], key, k)
  }

  lemma {:induction false} WithKeyAppend<T>(s: seq<T>, t: seq<T>, key: T -> int, k: int)
    ensures WithKey(s + t, key, k) == WithKey(s, key, k) + WithKey(t, key, k)
  {
    if s != [] {
      assert (s + t)[1..] == s[1..] + t;
      WithKeyAppend(s[1..], t, key, k);
    } else {
      assert s + t == t;
    }
  }

  predicate SortedByOrder<T>(s: seq<T>, key: T -> int)
  {
    forall i, j :: 0 <= i < j < |s| ==> key(s[i]) <= key(s[j])
  }

  function InsertByOrder<T>(x: T, s: seq<T>, key: T -> int): (r: seq<T>)
    requires SortedByOrder(s, key)
    ensures SortedByOrder(r, key)
    ensures multiset(r) == multiset(s) + multiset{x} && |r| == |s| + 1
    ensures r[0] == x || (s != [] && r[0] == s[0])
  {
    if s == [] then [x]
    else if key(x) < key(s[0]) then [x] + s
    else
      var t := InsertByOrder(x, s[1..], key);
      assert multiset(s) == multiset{s[0]} + multiset(s[1..]) by { assert s == [s[0]] + s[1..]; }
      [s[0]] + t
  }

  /** Inserting after every element with a smaller or equal key keeps equal keys in arrival order. */
  lemma {:induction false} InsertByOrderStable<T>(x: T, s: seq<T>, key: T -> int, k: int)
    requires SortedByOrder(s, key)
    ensures WithKey(InsertByOrder(x, s, key), key, k) == WithKey(s, key, k) + WithKey([x], key, k)
  {
    if s == [] {
      assert InsertByOrder(x, s, key) == [x];
      assert s + [x] == [x];
      WithKeyAppend(s, [x], key, k);
    } else if key(x) < key(s[0]) {
      InsertFrontStable(x, s, key, k);
    } else {
      SortedTail(s, key);
      InsertByOrderStable(x, s[1..], key, k);
      ConsStable(s, InsertByOrder(x, s[1..], key), x, key, k);
    }
  }

  lemma SortedTail<T>(s: seq<T>, key: T -> int)
    requires s != [] && SortedByOrder(s, key)
    ensures SortedByOrder(s[1..], key)
  {
    var tail := s[1..];
    forall i, j | 0 <= i < j < |tail| ensures key(tail[i]) <= key(tail[j]) {
      assert tail[i] == s[i + 1] && tail[j] == s[j + 1];
    }
  }

  /** Putting back the first element in front of a list that keeps its key's order. */
  lemma ConsStable<T>(s: seq<T>, t: seq<T>, x: T, key: T -> int, k: int)
    requires s != [] && WithKey(t, key, k) == WithKey(s[1..], key, k) + WithKey([x], key, k)
    ensures WithKey([s[0]] + t, key, k) == WithKey(s, key, k) + WithKey([x], key, k)
  {
    var head := WithKey([s[0]], key, k);
    WithKeyAppend([s[0]], t, key, k);
    assert s == [s[0]] + s[1..];
    WithKeyAppend([s[0]], s[1..], key, k);
    assert head + (WithKey(s[1..], key, k) + WithKey([x], key, k)) == (head + WithKey(s[1..], key, k)) + WithKey([x], key, k);
  }

  lemma {:induction false} InsertFrontStable<T>(x: T, s: seq<T>, key: T -> int, k: int)
    requires SortedByOrder(s, key) && s != [] && key(x) < key(s[0])
    ensures WithKey([x] + s, key, k) == WithKey(s, key, k) + WithKey([x], key, k)
  {
    WithKeyAppend([x], s, key, k);
    if key(x) == k {
      WithKeyNone(s, key, k);
    } else {
      assert WithKey([x], key, k) == [];
    }
  }

  lemma {:induction false} WithKeyNone<T>(s: seq<T>, key: T -> int, k: int)
    requires forall i :: 0 <= i < |s| ==> key(s[i]) > k
    ensures WithKey(s, key, k) == []
  {
    if s != [] {
      WithKeyNone(s[1..], key, k);
    }
  }

  /**
   * `list.sort(key=key)` for integer keys: sorted, a permutation, and
   * stable — the elements that share a key keep their relative order.
   */
  function SortByOrder<T>(s: seq<T>, key: T -> int): (r: seq<T>)
    ensures SortedByOrder(r, key)
    ensures multiset(r) == multiset(s) && |r| == |s|
    ensures forall k :: WithKey(r, key, k) == WithKey(s, key, k)
  {
    if s == [] then []
    else
      var front := s[..|s| - 1];
      var r := InsertByOrder(s[|s| - 1], SortByOrder(front, key), key);
      assert s == front + [s[|s| - 1]];
      forall k ensures WithKey(r, key, k) == WithKey(s, key, k) {
        InsertByOrderStable(s[|s| - 1], SortByOrder(front, key), key, k);
        WithKeyAppend(front, [s[|s| - 1]], key, k);
      }
      r
  }
}
