/**
 * The `_meta.json` navigation files: a JSON object whose key order is the
 * sidebar order. Python's `dict` keeps the order of the file, so an object
 * is a sequence of (key, value) entries in that order. (JavaScript's
 * `Object.entries` lists integer-like keys first, in numeric order; the
 * model reads every object in file order.)
 */
module Meta {

  /**
   * A value of an entry, as the scripts tell values apart: a JSON number is
   * an `Int` when it has no fraction or exponent, and a `Float` (kept as
   * its JSON text) otherwise.
   */
  datatype Value = Str(s: string) | Object | Array | Null | Bool(b: bool) | Int(i: int) | Float(text: string)

  /** Python's `isinstance(v, dict)`. */
  predicate IsDict(v: Value) { v.Object? }

  /** JavaScript's `typeof v === 'object'`, which also holds for arrays and `null`. */
  predicate IsJsObject(v: Value) { v.Object? || v.Array? || v.Null? }

  function Keys<V>(m: seq<(string, V)>): (r: seq<string>)
    ensures |r| == |m| && forall i :: 0 <= i < |m| ==> r[i] == m[i].0
  {
    seq(|m|, i requires 0 <= i < |m| => m[i].0)
  }

  predicate DistinctKeys<V>(m: seq<(string, V)>)
  {
    forall i, j :: 0 <= i < j < |m| ==> m[i].0 != m[j].0
  }

  /** `d[k] = v`: an existing key keeps its position and takes the new value; a new key goes last. */
  function Put<V>(m: seq<(string, V)>, k: string, v: V): (r: seq<(string, V)>)
    ensures k in Keys(r)
    ensures k in Keys(m) ==> |r| == |m| && forall i :: 0 <= i < |m| ==> r[i] == (if m[i].0 == k then (k, v) else m[i])
    ensures k !in Keys(m) ==> r == m + [(k, v)]
    ensures DistinctKeys(m) ==> DistinctKeys(r)
  {
    if k in Keys(m) then
      var r := seq(|m|, i requires 0 <= i < |m| => if m[i].0 == k then (k, v) else m[i]);
      assert Keys(r) == Keys(m);
      r
    else
      assert Keys(m + [(k, v)])[|m|] == k;
      m + [(k, v)]
  }

  /** The keys after `d[key] = v`: the old ones and `key`. */
  lemma PutKeys<V>(m: seq<(string, V)>, key: string, v: V, k: string)
    ensures k in Keys(Put(m, key, v)) <==> k in Keys(m) || k == key
  {
    var r := Put(m, key, v);
    if k in Keys(m) {
      var j :| 0 <= j < |m| && m[j].0 == k;
      assert r[j].0 == k;
    }
    if k in Keys(r) && k != key {
      var j :| 0 <= j < |r| && r[j].0 == k;
      assert j < |m| && m[j].0 == k;
    }
  }

  /** The entries whose key is not in `ks`, in their original order. */
  function Without<V>(m: seq<(string, V)>, ks: set<string>): (r: seq<(string, V)>)
    ensures |r| <= |m|
    ensures forall i :: 0 <= i < |r| ==> r[i] in m && r[i].0 !in ks
    ensures forall i :: 0 <= i < |m| && m[i].0 !in ks ==> m[i] in r
  {
    if m == [] then []
    else if m[0].0 in ks then Without(m[1..], ks)
    else [m[0]] + Without(m[1..], ks)
  }

  /** Removing two key sets one after the other removes their union. */
  lemma {:induction false} WithoutWithout<V>(m: seq<(string, V)>, a: set<string>, b: set<string>)
    ensures Without(Without(m, a), b) == Without(m, a + b)
  {
    if m != [] {
      WithoutWithout(m[1..], a, b);
      if m[0].0 !in a {
        assert Without(m, a) == [m[0]] + Without(m[1..], a);
        assert ([m[0]] + Without(m[1..], a))[1..] == Without(m[1..], a);
      }
    }
  }

  /** Removal shortens the object exactly when some key is removed. */
  lemma {:induction false} WithoutShorter<V>(m: seq<(string, V)>, ks: set<string>)
    ensures |Without(m, ks)| < |m| <==> exists i :: 0 <= i < |m| && m[i].0 in ks
  {
    if m != [] {
      WithoutShorter(m[1..], ks);
      if exists i :: 0 <= i < |m[1..]| && m[1..][i].0 in ks {
        var i :| 0 <= i < |m[1..]| && m[1..][i].0 in ks;
        assert m[i + 1] == m[1..][i];
      }
      if exists i :: 0 < i < |m| && m[i].0 in ks {
        var i :| 0 < i < |m| && m[i].0 in ks;
        assert m[1..][i - 1] == m[i];
      }
    }
  }

  /** Removing keys the object does not hold changes nothing. */
  lemma {:induction false} WithoutNone<V>(m: seq<(string, V)>, ks: set<string>)
    requires forall i :: 0 <= i < |m| ==> m[i].0 !in ks
    ensures Without(m, ks) == m
  {
    if m != [] {
      WithoutNone(m[1..], ks);
      assert m == [m[0]] + m[1..];
    }
  }

  /** With distinct keys, the value stored under a key is the one its entry holds. */
  lemma GetIs<V>(m: seq<(string, V)>, k: string, v: V)
    requires DistinctKeys(m) && (k, v) in m
    ensures k in Keys(m) && Get(m, k) == v
  {
    var i :| 0 <= i < |m| && m[i] == (k, v);
    assert Keys(m)[i] == k;
    var j :| 0 <= j < |m| && m[j] == (k, Get(m, k));
    assert i == j;
  }

  /** The value stored under `k`, if any (the first entry with that key). */
  function Get<V>(m: seq<(string, V)>, k: string): (r: V)
    requires k in Keys(m)
    ensures (k, r) in m
  {
    if m[0].0 == k then m[0].1 else Get(m[1..], k)
  }

  /** `meta[k] = v` for each entry in turn. */
  function PutAll(m: seq<(string, string)>, es: seq<(string, string)>): (r: seq<(string, string)>)
    ensures Keys(m) <= Keys(r)
    decreases |es|
  {
    if es == [] then m
    else
      var m1 := Put(m, es[0].0, es[0].1);
      assert Keys(m) <= Keys(m1) by {
        if es[0].0 in Keys(m) {
          assert forall i :: 0 <= i < |m| ==> m1[i].0 == m[i].0;
        } else {
          assert m1 == m + [es[0]];
        }
      }
      PutAll(m1, es[1..])
  }

  /** Putting one entry and then the rest. */
  lemma PutAllCons(m: seq<(string, string)>, e: (string, string), es: seq<(string, string)>)
    ensures PutAll(m, [e] + es) == PutAll(Put(m, e.0, e.1), es)
  {
    assert ([e] + es)[0] == e && ([e] + es)[1..] == es;
  }

  /** After putting entries, the keys are the old ones and the entries' own. */
  lemma {:induction false} PutAllKeys(m: seq<(string, string)>, es: seq<(string, string)>, k: string)
    ensures k in Keys(PutAll(m, es)) <==> k in Keys(m) || exists i :: 0 <= i < |es| && es[i].0 == k
    decreases |es|
  {
    if es != [] {
      PutKeys(m, es[0].0, es[0].1, k);
      PutAllKeys(Put(m, es[0].0, es[0].1), es[1..], k);
      if exists i :: 0 <= i < |es| && es[i].0 == k {
        var i :| 0 <= i < |es| && es[i].0 == k;
        if i > 0 {
          assert es[1..][i - 1].0 == k;
        }
      }
    }
  }

  /** Putting entries whose keys are all new appends them. */
  lemma {:induction false} PutAllFresh(m: seq<(string, string)>, es: seq<(string, string)>)
    requires DistinctKeys(m + es)
    ensures PutAll(m, es) == m + es
    decreases |es|
  {
    if es != [] {
      assert (m + es)[|m|] == es[0];
      var m1 := m + [es[0]];
      assert m1 + es[1..] == m + es;
      PutAllFresh(m1, es[1..]);
    }
  }

  /** Two entry lists with distinct keys and no key in common concatenate to one with distinct keys. */
  lemma DistinctConcat(a: seq<(string, string)>, b: seq<(string, string)>)
    requires DistinctKeys(a) && DistinctKeys(b)
    requires forall i, j :: 0 <= i < |a| && 0 <= j < |b| ==> a[i].0 != b[j].0
    ensures DistinctKeys(a + b)
  {
    forall i, j | 0 <= i < j < |a + b| ensures (a + b)[i].0 != (a + b)[j].0 {
      if j < |a| {
      } else if i < |a| {
        assert (a + b)[j] == b[j - |a|];
      } else {
        assert (a + b)[i] == b[i - |a|] && (a + b)[j] == b[j - |a|];
      }
    }
  }

  /** An element at two positions occurs at least twice. */
  lemma CountTwice<T>(b: seq<T>, i: nat, j: nat)
    requires i < j < |b| && b[i] == b[j]
    ensures multiset(b)[b[i]] >= 2
  {
    assert b == b[..i] + [b[i]] + b[i + 1..j] + [b[j]] + b[j + 1..];
  }

  /** In entries with distinct keys every entry occurs once. */
  lemma CountOnce(a: seq<(string, string)>, p: nat)
    requires DistinctKeys(a) && p < |a|
    ensures multiset(a)[a[p]] == 1
  {
    assert a == a[..p] + [a[p]] + a[p + 1..];
    assert a[p] !in a[..p] && a[p] !in a[p + 1..];
  }

  /** A reordering of entries with distinct keys still has distinct keys. */
  lemma DistinctPermutation(a: seq<(string, string)>, b: seq<(string, string)>)
    requires DistinctKeys(a) && multiset(a) == multiset(b)
    ensures DistinctKeys(b)
  {
    forall i, j | 0 <= i < j < |b| ensures b[i].0 != b[j].0 {
      if b[i].0 == b[j].0 {
        assert b[i] in multiset(a) && b[j] in multiset(a);
        var p :| 0 <= p < |a| && a[p] == b[i];
        var q :| 0 <= q < |a| && a[q] == b[j];
        CountOnce(a, p);
        CountTwice(b, i, j);
      }
    }
  }

  /** Writes the entries into the meta object one at a time, in order. */
  method PutEach(m: seq<(string, string)>, es: seq<(string, string)>) returns (meta: seq<(string, string)>)
    ensures meta == PutAll(m, es)
  {
    meta := m;
    for i := 0 to |es|
      invariant PutAll(meta, es[i..]) == PutAll(m, es)
    {
      PutAllAt(meta, es, i);
      meta := Put(meta, es[i].0, es[i].1);
    }
    assert es[|es|..] == [];
  }

  lemma PutAllAt(m: seq<(string, string)>, es: seq<(string, string)>, i: nat)
    requires i < |es|
    ensures PutAll(m, es[i..]) == PutAll(Put(m, es[i].0, es[i].1), es[i + 1..])
  {
    assert es[i..][0] == es[i] && es[i..][1..] == es[i + 1..];
  }
}
