/** Sequences up to order, and maps that remember the order their keys were added in. */
module Sequences {

  predicate Distinct<T(==)>(s: seq<T>) {
    forall i, j :: 0 <= i < j < |s| ==> s[i] != s[j]
  }

  predicate SameElements<T(==)>(s: seq<T>, t: seq<T>) {
    (forall x :: x in s ==> x in t) && (forall x :: x in t ==> x in s)
  }

  function Reversed<T>(s: seq<T>): (r: seq<T>)
    ensures |r| == |s| && forall i :: 0 <= i < |r| ==> r[i] == s[|s| - 1 - i]
  {
    seq(|s|, i requires 0 <= i < |s| => s[|s| - 1 - i])
  }

  lemma {:induction false} CountOfDistinct<T>(s: seq<T>, x: T)
    requires Distinct(s)
    ensures multiset(s)[x] == if x in s then 1 else 0
  {
    if s != [] {
      var init := s[..|s| - 1];
      assert s == init + [s[|s| - 1]];
      CountOfDistinct(init, x);
    }
  }

  /** Without repetitions, having the same elements is being a permutation. */
  lemma DistinctPermutation<T>(s: seq<T>, t: seq<T>)
    requires Distinct(s) && Distinct(t) && SameElements(s, t)
    ensures multiset(s) == multiset(t) && |s| == |t|
  {
    forall x ensures multiset(s)[x] == multiset(t)[x] {
      CountOfDistinct(s, x);
      CountOfDistinct(t, x);
    }
    assert |multiset(s)| == |s| && |multiset(t)| == |t|;
  }

  lemma RepetitionCounts<T>(t: seq<T>, i: nat, j: nat)
    requires i < j < |t| && t[i] == t[j]
    ensures multiset(t)[t[i]] > 1
  {
    assert t == t[..j] + t[j..];
    assert t[i] in t[..j] && t[j] in t[j..];
  }

  lemma PermutationOfDistinct<T>(s: seq<T>, t: seq<T>)
    requires Distinct(s) && multiset(s) == multiset(t)
    ensures Distinct(t) && SameElements(s, t)
  {
    forall x ensures x in s <==> x in t {
      assert x in multiset(s) <==> x in multiset(t);
    }
    forall i, j | 0 <= i < j < |t| ensures t[i] != t[j] {
      CountOfDistinct(s, t[i]);
      if t[i] == t[j] {
        RepetitionCounts(t, i, j);
      }
    }
  }

  /** A map whose keys are listed in the order they were first added. */
  datatype Table<K(==), V> = Table(keys: seq<K>, at: map<K, V>) {

    predicate Valid() {
      Distinct(keys) && (forall k :: k in keys ==> k in at) && (forall k :: k in at ==> k in keys)
    }

    /** Sets a key; a key that is already there keeps its place. */
    function Put(k: K, v: V): (t: Table<K, V>)
      requires Valid()
      ensures t.Valid() && t.at == at[k := v]
    {
      if k in at then Table(keys, at[k := v]) else Table(keys + [k], at[k := v])
    }

    function Remove(k: K): (t: Table<K, V>)
      requires Valid()
      ensures t.Valid() && t.at == at - {k}
    {
      Table(Without(keys, k), at - {k})
    }

    function Values(): (s: seq<V>)
      requires Valid()
      ensures |s| == |keys| && forall i :: 0 <= i < |s| ==> s[i] == at[keys[i]]
    {
      seq(|keys|, i requires 0 <= i < |keys| => at[keys[i]])
    }
  }

  function Without<K(==)>(keys: seq<K>, k: K): (left: seq<K>)
    ensures forall x :: x in left ==> x in keys && x != k
    ensures forall x :: x in keys && x != k ==> x in left
    ensures Distinct(keys) ==> Distinct(left)
  {
    if keys == [] then []
    else
      var rest := Without(keys[1..], k);
      assert keys == [keys[0]] + keys[1..];
      assert Distinct(keys) ==> keys[0] !in rest;
      if keys[0] == k then rest else [keys[0]] + rest
  }
}
