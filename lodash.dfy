/**
 The collection helpers the reducer borrows from lodash and from plain
 JavaScript objects: enumerating a dictionary's keys, taking its values in
 that order, filtering a list, re-keying a list into a dictionary, and
 picking a subset of keys. The enumeration order of a JavaScript object is
 its insertion order; the model does not track it, so an enumeration is any
 duplicate-free listing of the keys.
 */
module Lodash {
  import opened Types

  /** `ks` lists every element of `keys` exactly once. */
  ghost predicate IsEnumeration(ks: seq<Id>, keys: set<Id>) {
    && (forall i, j :: 0 <= i < j < |ks| ==> ks[i] != ks[j])
    && (forall k :: k in ks <==> k in keys)
  }

  /** `_.keys(m)`: the keys of a dictionary, each once, in some order. */
  method Keys<V>(m: map<Id, V>) returns (ks: seq<Id>)
    ensures IsEnumeration(ks, m.Keys)
  {
    ks := [];
    var rest := m.Keys;
    while rest != {}
      invariant forall i, j :: 0 <= i < j < |ks| ==> ks[i] != ks[j]
      invariant forall k :: k in ks ==> k in m.Keys && k !in rest
      invariant forall k :: k in m.Keys ==> k in ks || k in rest
      invariant rest <= m.Keys
      decreases rest
    {
      var k :| k in rest;
      ks := ks + [k];
      rest := rest - {k};
    }
  }

  /** `_.values(m)` for the enumeration `ks` of its keys. */
  function ValuesOf<V>(m: map<Id, V>, ks: seq<Id>): (vs: seq<V>)
    requires forall k :: k in ks ==> k in m
    ensures |vs| == |ks|
    ensures forall i :: 0 <= i < |ks| ==> vs[i] == m[ks[i]]
  {
    if ks == [] then [] else ValuesOf(m, ks[..|ks| - 1]) + [m[ks[|ks| - 1]]]
  }

  /** The values taken along an enumeration of the keys are exactly the dictionary's values. */
  lemma ValuesOfEnumeration<V>(m: map<Id, V>, ks: seq<Id>)
    requires IsEnumeration(ks, m.Keys)
    ensures forall v :: v in ValuesOf(m, ks) <==> v in m.Values
  {
    var vs := ValuesOf(m, ks);
    forall v | v in m.Values ensures v in vs {
      var k :| k in m && m[k] == v;
      var i :| 0 <= i < |ks| && ks[i] == k;
      assert vs[i] == v;
    }
  }

  /** `_.filter(s, keep)` / `Array.prototype.filter`: the kept elements in their original order. */
  function Filter<T(!new)>(s: seq<T>, keep: T -> bool): (r: seq<T>)
    ensures |r| <= |s|
    ensures forall x :: x in r <==> x in s && keep(x)
  {
    if s == [] then [] else (if keep(s[0]) then [s[0]] else []) + Filter(s[1..], keep)
  }

  /** `sub` is `s` with some elements removed, the rest in their original relative order. */
  predicate IsSubsequence<T(==)>(sub: seq<T>, s: seq<T>)
    decreases |s|
  {
    if s == [] then sub == []
    else (sub != [] && sub[0] == s[0] && IsSubsequence(sub[1..], s[1..])) || IsSubsequence(sub, s[1..])
  }

  lemma {:induction false} FilterIsSubsequence<T(!new)>(s: seq<T>, keep: T -> bool)
    ensures IsSubsequence(Filter(s, keep), s)
  {
    if s != [] {
      FilterIsSubsequence(s[1..], keep);
      var r := Filter(s, keep);
      if keep(s[0]) {
        assert r == [s[0]] + Filter(s[1..], keep);
        assert r != [] && r[0] == s[0] && r[1..] == Filter(s[1..], keep);
      } else {
        assert r == Filter(s[1..], keep);
      }
    }
  }

  /**
   `_.keyBy(vs, key)`: a dictionary holding every element under its key;
   when two elements share a key the later one wins.
   */
  function KeyBy<T>(vs: seq<T>, key: T -> Id): (m: map<Id, T>)
    ensures forall k :: k in m <==> exists i :: 0 <= i < |vs| && key(vs[i]) == k
    ensures forall k :: k in m ==> key(m[k]) == k && m[k] in vs
  {
    if vs == [] then map[]
    else
      var m' := KeyBy(vs[..|vs| - 1], key);
      var last := vs[|vs| - 1];
      assert forall i :: 0 <= i < |vs| - 1 ==> vs[..|vs| - 1][i] == vs[i];
      m'[key(last) := last]
  }

  /**
   Re-keying the values of a dictionary that already holds every value under
   its own key, after a filter, is the same as removing the filtered-out keys.
   */
  lemma {:induction false} KeyByOfKeyedValues<T(!new)>(m: map<Id, T>, ks: seq<Id>, key: T -> Id, keep: T -> bool)
    requires forall k :: k in ks ==> k in m
    requires forall i, j :: 0 <= i < j < |ks| ==> ks[i] != ks[j]
    ensures (forall k :: k in m ==> key(m[k]) == k) ==>
      var r := KeyBy(Filter(ValuesOf(m, ks), keep), key);
      forall k :: (k in r <==> k in ks && keep(m[k])) && (k in r ==> r[k] == m[k])
  {
    if !(forall k :: k in m ==> key(m[k]) == k) { return; }
    var lhs := KeyBy(Filter(ValuesOf(m, ks), keep), key);
    var rhs := map k | k in ks && keep(m[k]) :: m[k];
    var vs := Filter(ValuesOf(m, ks), keep);
    forall k | k in lhs
      ensures k in rhs && lhs[k] == rhs[k]
    {
      var v := lhs[k];
      assert v in vs;
      assert v in ValuesOf(m, ks) && keep(v);
      var i :| 0 <= i < |ks| && ValuesOf(m, ks)[i] == v;
      assert key(v) == ks[i];
      assert k == ks[i];
    }
    forall k | k in rhs
      ensures k in lhs
    {
      var i :| 0 <= i < |ks| && ks[i] == k;
      assert ValuesOf(m, ks)[i] == m[k];
      assert m[k] in vs;
      var j :| 0 <= j < |vs| && vs[j] == m[k];
      assert key(vs[j]) == k;
    }
  }

  /** `_.pick(m, keys)`: the entries of `m` whose key is one of `keys`. */
  function Pick<V>(m: map<Id, V>, keys: set<Id>): (r: map<Id, V>)
    ensures r.Keys == m.Keys * keys
    ensures forall k :: k in r ==> r[k] == m[k]
  {
    map k | k in m && k in keys :: m[k]
  }
}
