/** Sequence helpers shared by the models: concatenating a list of lists,
    removing duplicates while keeping first appearances, and order-preserving
    subsequences. */
module Seqs {

  /** `[x for xs in xss for x in xs]` */
  function Flatten<T>(xss: seq<seq<T>>): (r: seq<T>)
    decreases |xss|
  {
    if |xss| == 0 then [] else xss[0] + Flatten(xss[1..])
  }

  lemma {:induction false} FlattenAppend<T>(xss: seq<seq<T>>, ys: seq<T>)
    ensures Flatten(xss + [ys]) == Flatten(xss) + ys
    decreases |xss|
  {
    if |xss| > 0 {
      assert (xss + [ys])[1..] == xss[1..] + [ys];
      FlattenAppend(xss[1..], ys);
    }
  }

  /** Sum of the multisets of the parts. */
  function MultisetUnion<T>(xss: seq<seq<T>>): multiset<T>
    decreases |xss|
  {
    if |xss| == 0 then multiset{} else multiset(xss[0]) + MultisetUnion(xss[1..])
  }

  lemma {:induction false} FlattenMultiset<T>(xss: seq<seq<T>>)
    ensures multiset(Flatten(xss)) == MultisetUnion(xss)
    decreases |xss|
  {
    if |xss| > 0 {
      FlattenMultiset(xss[1..]);
    }
  }

  predicate Distinct<T(==)>(s: seq<T>) {
    forall i, j :: 0 <= i < j < |s| ==> s[i] != s[j]
  }

  /** Position of the first occurrence of `x` in `s`. */
  function IndexOf<T(==)>(s: seq<T>, x: T): (i: nat)
    requires x in s
    ensures i < |s| && s[i] == x
    ensures forall j :: 0 <= j < i ==> s[j] != x
  {
    if s[0] == x then 0 else 1 + IndexOf(s[1..], x)
  }

  /** `list(dict.fromkeys(s))`: the distinct elements of `s` in order of first
      appearance. */
  function Dedup<T(==)>(s: seq<T>): seq<T>
    decreases |s|
  {
    if |s| == 0 then []
    else if s[|s| - 1] in Dedup(s[..|s| - 1]) then Dedup(s[..|s| - 1])
    else Dedup(s[..|s| - 1]) + [s[|s| - 1]]
  }

  /** The elements `Dedup` keeps are exactly those of `s`, each once, ordered
      by where they first appear in `s`. */
  lemma DedupSpec<T>(s: seq<T>)
    ensures Distinct(Dedup(s))
    ensures forall i :: 0 <= i < |Dedup(s)| ==> Dedup(s)[i] in s
    ensures forall i :: 0 <= i < |s| ==> s[i] in Dedup(s)
    ensures forall i, j :: 0 <= i < j < |Dedup(s)| ==> IndexOf(s, Dedup(s)[i]) < IndexOf(s, Dedup(s)[j])
  {
    DedupMembers(s);
    DedupDistinct(s);
    DedupOrder(s);
  }

  lemma {:induction false} DedupMembers<T>(s: seq<T>)
    ensures forall x :: x in Dedup(s) ==> x in s
    ensures forall x :: x in s ==> x in Dedup(s)
    decreases |s|
  {
    if |s| > 0 {
      DedupMembers(s[..|s| - 1]);
      assert s == s[..|s| - 1] + [s[|s| - 1]];
    }
  }

  lemma {:induction false} DedupDistinct<T>(s: seq<T>)
    ensures Distinct(Dedup(s))
    decreases |s|
  {
    if |s| > 0 {
      DedupDistinct(s[..|s| - 1]);
    }
  }

  lemma {:induction false} DedupOrder<T>(s: seq<T>)
    ensures forall i, j :: 0 <= i < j < |Dedup(s)| ==>
      Dedup(s)[i] in s && Dedup(s)[j] in s && IndexOf(s, Dedup(s)[i]) < IndexOf(s, Dedup(s)[j])
    decreases |s|
  {
    if |s| > 0 {
      var init, x := s[..|s| - 1], s[|s| - 1];
      var d := Dedup(init);
      DedupOrder(init);
      DedupMembers(init);
      assert s == init + [x];
      var r := Dedup(s);
      assert r == if x in d then d else d + [x];
      forall i, j | 0 <= i < j < |r|
        ensures r[i] in s && r[j] in s && IndexOf(s, r[i]) < IndexOf(s, r[j])
      {
        assert d[i] in d && r[i] == d[i];
        IndexOfPrefix(init, [x], d[i]);
        if j < |d| {
          assert d[j] in d && r[j] == d[j];
          IndexOfPrefix(init, [x], d[j]);
        } else {
          assert x !in init && r[j] == x;
          assert IndexOf(s, x) == |s| - 1 by {
            assert forall k :: 0 <= k < |s| - 1 ==> s[k] == init[k];
          }
        }
      }
    } else {
      assert Dedup(s) == [];
    }
  }

  lemma {:induction false} IndexOfPrefix<T>(a: seq<T>, b: seq<T>, x: T)
    requires x in a
    ensures IndexOf(a + b, x) == IndexOf(a, x)
    decreases |a|
  {
    if a[0] != x {
      assert (a + b)[1..] == a[1..] + b;
      IndexOfPrefix(a[1..], b, x);
    }
  }

  /** `a` is `b` with some elements left out, the rest in order. */
  predicate IsSubsequence<T(==)>(a: seq<T>, b: seq<T>)
    decreases |b|
  {
    if |a| == 0 then true
    else if |b| == 0 then false
    else if a[|a| - 1] == b[|b| - 1] then IsSubsequence(a[..|a| - 1], b[..|b| - 1])
    else IsSubsequence(a, b[..|b| - 1])
  }

  /** `[s[i] for i in picks]` */
  function Select<T>(s: seq<T>, picks: seq<nat>): (r: seq<T>)
    requires forall i :: 0 <= i < |picks| ==> picks[i] < |s|
    ensures |r| == |picks|
    ensures forall i :: 0 <= i < |picks| ==> r[i] == s[picks[i]]
  {
    seq(|picks|, i requires 0 <= i < |picks| => s[picks[i]])
  }

  lemma SelectSplit<T>(s: seq<T>, picks: seq<nat>, q: nat)
    requires q < |picks|
    requires forall i :: 0 <= i < |picks| ==> picks[i] < |s|
    ensures Select(s, picks) == Select(s, picks[..q]) + [s[picks[q]]] + Select(s, picks[q + 1..])
  {
    var a := Select(s, picks[..q]);
    var b := Select(s, picks[q + 1..]);
    assert |a + [s[picks[q]]] + b| == |picks|;
    forall i | 0 <= i < |picks|
      ensures (a + [s[picks[q]]] + b)[i] == Select(s, picks)[i]
    {
      if i < q {
        assert (a + [s[picks[q]]] + b)[i] == a[i];
      } else if i > q {
        assert (a + [s[picks[q]]] + b)[i] == b[i - q - 1];
      }
    }
  }

  lemma SelectConcat<T>(s: seq<T>, a: seq<nat>, b: seq<nat>)
    requires forall i :: 0 <= i < |a| ==> a[i] < |s|
    requires forall i :: 0 <= i < |b| ==> b[i] < |s|
    ensures Select(s, a + b) == Select(s, a) + Select(s, b)
  {
    var ab := a + b;
    assert forall i :: 0 <= i < |ab| ==> ab[i] < |s|;
    var l := Select(s, ab);
    var r := Select(s, a) + Select(s, b);
    assert |l| == |r|;
    forall i | 0 <= i < |l|
      ensures l[i] == r[i]
    {
      if i < |a| { assert ab[i] == a[i]; } else { assert ab[i] == b[i - |a|]; }
    }
  }

  /** `s` without its element at position `q`. */
  function RemoveAt<T>(s: seq<T>, q: nat): (r: seq<T>)
    requires q < |s|
    ensures |r| == |s| - 1
    ensures forall i :: 0 <= i < |r| ==> r[i] == s[if i < q then i else i + 1]
  {
    s[..q] + s[q + 1..]
  }

  /** Removing the pick at position `q` keeps the picks distinct. */
  lemma RemovePick(picks: seq<nat>, q: nat, bound: nat)
    requires q < |picks| && Distinct(picks)
    requires forall i :: 0 <= i < |picks| ==> picks[i] < bound
    ensures Distinct(RemoveAt(picks, q))
    ensures forall i :: 0 <= i < |RemoveAt(picks, q)| ==> RemoveAt(picks, q)[i] < bound
    ensures forall i :: 0 <= i < |RemoveAt(picks, q)| ==> RemoveAt(picks, q)[i] != picks[q]
  {
    var rest := RemoveAt(picks, q);
    forall i | 0 <= i < |rest|
      ensures rest[i] == picks[if i < q then i else i + 1]
    {
    }
  }

  /** Picking distinct positions never picks an element more often than it
      occurs. */
  lemma {:induction false} SelectSubMultiset<T>(s: seq<T>, picks: seq<nat>)
    requires Distinct(picks)
    requires forall i :: 0 <= i < |picks| ==> picks[i] < |s|
    ensures multiset(Select(s, picks)) <= multiset(s)
    decreases |s|
  {
    if |s| > 0 {
      var last := |s| - 1;
      var init := s[..last];
      assert s == init + [s[last]];
      if last in picks {
        var q := IndexOf(picks, last);
        var rest := RemoveAt(picks, q);
        RemovePick(picks, q, |s|);
        assert forall i :: 0 <= i < |rest| ==> rest[i] < last;
        SelectSubMultiset(init, rest);
        SelectSplit(s, picks, q);
        SelectConcat(s, picks[..q], picks[q + 1..]);
        SameSelect(init, s, rest);
      } else {
        assert forall i :: 0 <= i < |picks| ==> picks[i] < last;
        SelectSubMultiset(init, picks);
        SameSelect(init, s, picks);
      }
    }
  }

  lemma SameSelect<T>(init: seq<T>, s: seq<T>, picks: seq<nat>)
    requires |init| <= |s| && init == s[..|init|]
    requires forall i :: 0 <= i < |picks| ==> picks[i] < |init|
    ensures Select(init, picks) == Select(s, picks)
  {
  }
}
