/** Python dictionaries keep their keys in insertion order, and several of the
    scripts depend on that order when they iterate. A `Dict` is an association
    list: assigning to a present key updates it in place, assigning to a new key
    appends it. */
module Dicts {
  import opened Wrappers

  type Dict<K, V> = seq<(K, V)>

  /** The keys in iteration order. */
  function Keys<K, V>(d: Dict<K, V>): (ks: seq<K>)
    ensures |ks| == |d|
    ensures forall i :: 0 <= i < |d| ==> ks[i] == d[i].0
  {
    if |d| == 0 then [] else [d[0].0] + Keys(d[1..])
  }

  /** The values in iteration order. */
  function Values<K, V>(d: Dict<K, V>): (vs: seq<V>)
    ensures |vs| == |d|
    ensures forall i :: 0 <= i < |d| ==> vs[i] == d[i].1
  {
    if |d| == 0 then [] else [d[0].1] + Values(d[1..])
  }

  /** No key occurs twice. */
  ghost predicate Wellformed<K, V>(d: Dict<K, V>) {
    forall i, j :: 0 <= i < j < |d| ==> d[i].0 != d[j].0
  }

  /** `d[k]` when `k in d`. */
  function Get<K(==), V>(d: Dict<K, V>, k: K): (r: Option<V>)
  {
    if |d| == 0 then None
    else if d[0].0 == k then Some(d[0].1)
    else Get(d[1..], k)
  }

  /** `k in d` is the same test as a successful lookup. */
  lemma {:induction false} GetNone<K, V>(d: Dict<K, V>, k: K)
    ensures Get(d, k).None? <==> k !in Keys(d)
    decreases |d|
  {
    if |d| > 0 && d[0].0 != k {
      GetNone(d[1..], k);
      assert Keys(d) == [d[0].0] + Keys(d[1..]);
    }
  }

  /** `d[k] = v`: in place when `k` is present, appended otherwise. */
  function Put<K(==), V>(d: Dict<K, V>, k: K, v: V): (r: Dict<K, V>)
    ensures |r| == if k in Keys(d) then |d| else |d| + 1
  {
    if |d| == 0 then [(k, v)]
    else if d[0].0 == k then [(k, v)] + d[1..]
    else [d[0]] + Put(d[1..], k, v)
  }

  lemma {:induction false} GetPut<K, V>(d: Dict<K, V>, k: K, v: V, k': K)
    ensures Get(Put(d, k, v), k') == if k' == k then Some(v) else Get(d, k')
    decreases |d|
  {
    if |d| > 0 && d[0].0 != k {
      GetPut(d[1..], k, v, k');
      assert Put(d, k, v)[1..] == Put(d[1..], k, v);
    }
  }

  /** Assigning keeps the key order, appending only a new key. */
  lemma {:induction false} KeysPut<K, V>(d: Dict<K, V>, k: K, v: V)
    ensures Keys(Put(d, k, v)) == if k in Keys(d) then Keys(d) else Keys(d) + [k]
    decreases |d|
  {
    if |d| > 0 && d[0].0 != k {
      KeysPut(d[1..], k, v);
      assert Put(d, k, v)[1..] == Put(d[1..], k, v);
      assert Keys(d) == [d[0].0] + Keys(d[1..]);
    }
  }

  lemma PutWellformed<K, V>(d: Dict<K, V>, k: K, v: V)
    requires Wellformed(d)
    ensures Wellformed(Put(d, k, v))
  {
    KeysPut(d, k, v);
    var r := Put(d, k, v);
    forall i, j | 0 <= i < j < |r|
      ensures r[i].0 != r[j].0
    {
      assert Keys(r)[i] == r[i].0 && Keys(r)[j] == r[j].0;
      assert Keys(d)[i] == d[i].0;
      if j < |d| {
        assert Keys(d)[j] == d[j].0;
      }
    }
  }

  /** In a well-formed dictionary the entry at position `i` is what `Get` finds. */
  lemma {:induction false} GetAt<K, V>(d: Dict<K, V>, i: nat)
    requires Wellformed(d)
    requires i < |d|
    ensures Get(d, d[i].0) == Some(d[i].1)
    decreases i
  {
    if i > 0 {
      assert d[0].0 != d[i].0;
      assert Wellformed(d[1..]) by {
        forall a, b | 0 <= a < b < |d| - 1
          ensures d[1..][a].0 != d[1..][b].0
        {
          assert d[a + 1].0 != d[b + 1].0;
        }
      }
      GetAt(d[1..], i - 1);
    }
  }

  /** A found value sits at some position of the dictionary. */
  lemma {:induction false} GetSome<K, V>(d: Dict<K, V>, k: K)
    requires Get(d, k).Some?
    ensures exists i :: 0 <= i < |d| && d[i] == (k, Get(d, k).value)
    decreases |d|
  {
    if d[0].0 != k {
      GetSome(d[1..], k);
      var i :| 0 <= i < |d| - 1 && d[1..][i] == (k, Get(d, k).value);
      assert d[i + 1] == (k, Get(d, k).value);
    }
  }

  /** Apply `f` to every value, keeping keys and their order. */
  function MapValues<K, V, W>(d: Dict<K, V>, f: (K, V) -> W): (r: Dict<K, W>)
    ensures |r| == |d|
    ensures forall i :: 0 <= i < |d| ==> r[i] == (d[i].0, f(d[i].0, d[i].1))
  {
    if |d| == 0 then [] else [(d[0].0, f(d[0].0, d[0].1))] + MapValues(d[1..], f)
  }

  lemma {:induction false} GetMapValues<K, V, W>(d: Dict<K, V>, f: (K, V) -> W, k: K)
    ensures Get(MapValues(d, f), k) == if Get(d, k).Some? then Some(f(k, Get(d, k).value)) else None
    decreases |d|
  {
    if |d| > 0 && d[0].0 != k {
      assert MapValues(d, f)[1..] == MapValues(d[1..], f);
      GetMapValues(d[1..], f, k);
    }
  }

  lemma KeysMapValues<K, V, W>(d: Dict<K, V>, f: (K, V) -> W)
    ensures Keys(MapValues(d, f)) == Keys(d)
  {
  }

  /** Every entry after `Put` is the new pair or the old entry at that position. */
  lemma {:induction false} PutEntries<K, V>(d: Dict<K, V>, k: K, v: V)
    ensures forall i :: 0 <= i < |Put(d, k, v)| ==> Put(d, k, v)[i] == (k, v) || (i < |d| && Put(d, k, v)[i] == d[i])
    decreases |d|
  {
    if |d| > 0 && d[0].0 != k {
      PutEntries(d[1..], k, v);
      assert Put(d, k, v)[1..] == Put(d[1..], k, v);
      forall i | 1 <= i < |Put(d, k, v)|
        ensures Put(d, k, v)[i] == (k, v) || (i < |d| && Put(d, k, v)[i] == d[i])
      {
        assert Put(d, k, v)[i] == Put(d[1..], k, v)[i - 1];
      }
    }
  }
}
