/** A PHP array with string keys, as an insertion-ordered list of entries.
    Assigning to a key that is present overwrites that entry where it stands;
    assigning to a new key appends it. */
module OrderedMap {

  datatype Option<T> = None | Some(value: T)

  function Keys<K, V>(m: seq<(K, V)>): (ks: seq<K>)
    ensures |ks| == |m| && forall i :: 0 <= i < |m| ==> ks[i] == m[i].0
  {
    seq(|m|, i requires 0 <= i < |m| => m[i].0)
  }

  function Values<K, V>(m: seq<(K, V)>): (vs: seq<V>)
    ensures |vs| == |m| && forall i :: 0 <= i < |m| ==> vs[i] == m[i].1
  {
    seq(|m|, i requires 0 <= i < |m| => m[i].1)
  }

  predicate Distinct<K(==)>(ks: seq<K>)
  {
    forall i, j :: 0 <= i < j < |ks| ==> ks[i] != ks[j]
  }

  /** $m[$k] ?? null: the value stored under k. */
  function Lookup<K(==), V>(m: seq<(K, V)>, k: K): (r: Option<V>)
    ensures r.None? <==> k !in Keys(m)
  {
    if |m| == 0 then None
    else if m[0].0 == k then Some(m[0].1)
    else
      assert Keys(m) == [m[0].0] + Keys(m[1..]);
      Lookup(m[1..], k)
  }

  /** $m[$k] = $v. */
  function Put<K(==), V>(m: seq<(K, V)>, k: K, v: V): seq<(K, V)>
  {
    if |m| == 0 then [(k, v)]
    else if m[0].0 == k then [(k, v)] + m[1..]
    else [m[0]] + Put(m[1..], k, v)
  }

  /** The key that was assigned maps to the new value; every other key keeps its value. */
  lemma {:induction false} PutLookup<K, V>(m: seq<(K, V)>, k: K, v: V, k': K)
    ensures Lookup(Put(m, k, v), k') == if k' == k then Some(v) else Lookup(m, k')
    decreases |m|
  {
    if |m| > 0 && m[0].0 != k {
      assert Put(m, k, v)[1..] == Put(m[1..], k, v);
      PutLookup(m[1..], k, v, k');
    }
  }

  /** An existing key keeps its position; a new key goes to the end. */
  lemma {:induction false} PutKeys<K, V>(m: seq<(K, V)>, k: K, v: V)
    ensures Keys(Put(m, k, v)) == if k in Keys(m) then Keys(m) else Keys(m) + [k]
    decreases |m|
  {
    if |m| > 0 {
      assert Keys(m) == [m[0].0] + Keys(m[1..]);
      if m[0].0 != k {
        PutKeys(m[1..], k, v);
        assert Keys(Put(m, k, v)) == [m[0].0] + Keys(Put(m[1..], k, v));
      } else {
        assert Keys(Put(m, k, v)) == [k] + Keys(m[1..]);
      }
    }
  }

  /** Assignment keeps the keys of a PHP array pairwise distinct. */
  lemma PutDistinct<K, V>(m: seq<(K, V)>, k: K, v: V)
    requires Distinct(Keys(m))
    ensures Distinct(Keys(Put(m, k, v)))
  {
    PutKeys(m, k, v);
  }

  /** Assigns vs[i] to ks[i] for every i, in order. */
  function PutAll<K(==), V>(m: seq<(K, V)>, ks: seq<K>, vs: seq<V>): seq<(K, V)>
    requires |ks| == |vs|
    decreases |ks|
  {
    if |ks| == 0 then m
    else Put(PutAll(m, ks[..|ks| - 1], vs[..|vs| - 1]), ks[|ks| - 1], vs[|vs| - 1])
  }

  lemma PutAllSnoc<K, V>(m: seq<(K, V)>, ks: seq<K>, vs: seq<V>, k: K, v: V)
    requires |ks| == |vs|
    ensures PutAll(m, ks + [k], vs + [v]) == Put(PutAll(m, ks, vs), k, v)
  {
    assert (ks + [k])[..|ks|] == ks;
    assert (vs + [v])[..|vs|] == vs;
  }

  /** After assigning distinct keys in order, each of them holds its own value and
      every other key keeps the value it had. */
  lemma {:induction false} PutAllLookup<K, V>(m: seq<(K, V)>, ks: seq<K>, vs: seq<V>, k: K)
    requires |ks| == |vs| && Distinct(ks)
    ensures forall i :: 0 <= i < |ks| && ks[i] == k ==> Lookup(PutAll(m, ks, vs), k) == Some(vs[i])
    ensures k !in ks ==> Lookup(PutAll(m, ks, vs), k) == Lookup(m, k)
    decreases |ks|
  {
    if |ks| > 0 {
      var n := |ks| - 1;
      var init := ks[..n];
      assert Distinct(init);
      PutAllLookup(m, init, vs[..n], k);
      PutLookup(PutAll(m, init, vs[..n]), ks[n], vs[n], k);
      assert forall i :: 0 <= i < n ==> init[i] == ks[i];
      forall i | 0 <= i < |ks| && ks[i] == k
        ensures Lookup(PutAll(m, ks, vs), k) == Some(vs[i])
      {
        if i < n {
          assert ks[i] != ks[n];
        }
      }
    }
  }

  lemma {:induction false} PutAllDistinct<K, V>(m: seq<(K, V)>, ks: seq<K>, vs: seq<V>)
    requires |ks| == |vs| && Distinct(Keys(m))
    ensures Distinct(Keys(PutAll(m, ks, vs)))
    decreases |ks|
  {
    if |ks| > 0 {
      var n := |ks| - 1;
      PutAllDistinct(m, ks[..n], vs[..n]);
      PutDistinct(PutAll(m, ks[..n], vs[..n]), ks[n], vs[n]);
    }
  }

  /** Assigning keys in order keeps the earlier keys where they are; afterwards a
      key is present exactly when it was present before or was assigned. */
  lemma {:induction false} PutAllKeys<K, V>(m: seq<(K, V)>, ks: seq<K>, vs: seq<V>, k: K)
    requires |ks| == |vs|
    ensures Keys(m) <= Keys(PutAll(m, ks, vs))
    ensures k in Keys(PutAll(m, ks, vs)) <==> k in Keys(m) || k in ks
    decreases |ks|
  {
    if |ks| > 0 {
      var n := |ks| - 1;
      PutAllKeys(m, ks[..n], vs[..n], k);
      PutKeys(PutAll(m, ks[..n], vs[..n]), ks[n], vs[n]);
      assert ks == ks[..n] + [ks[n]];
    }
  }

  /** Assigning a key that is not present appends one entry at the end. */
  lemma {:induction false} PutNew<K, V>(m: seq<(K, V)>, k: K, v: V)
    requires k !in Keys(m)
    ensures Put(m, k, v) == m + [(k, v)]
    decreases |m|
  {
    if |m| > 0 {
      assert Keys(m) == [m[0].0] + Keys(m[1..]);
      PutNew(m[1..], k, v);
      assert [m[0]] + (m[1..] + [(k, v)]) == m + [(k, v)];
    }
  }

  /** Assigning the entries of an array with distinct keys, in order, to an empty
      array rebuilds that array. */
  lemma {:induction false} PutAllRebuilds<K, V>(m: seq<(K, V)>)
    requires Distinct(Keys(m))
    ensures PutAll([], Keys(m), Values(m)) == m
    decreases |m|
  {
    if |m| > 0 {
      var n := |m| - 1;
      var init := m[..n];
      assert Keys(m)[..n] == Keys(init) && Values(m)[..n] == Values(init);
      PutAllRebuilds(init);
      forall j | 0 <= j < n
        ensures Keys(init)[j] != m[n].0
      {
        assert Keys(m)[j] != Keys(m)[n];
      }
      PutNew(init, m[n].0, m[n].1);
      assert init + [(m[n].0, m[n].1)] == m;
    }
  }

  /** array_merge(a, b) for string keys: b's entries are assigned into a, in b's order. */
  function Merge<K(==), V>(a: seq<(K, V)>, b: seq<(K, V)>): seq<(K, V)>
  {
    PutAll(a, Keys(b), Values(b))
  }

  /** On a key present in both arrays the value from the second one wins; a key in
      only one of them keeps the value it has there. */
  lemma MergeLookup<K, V>(a: seq<(K, V)>, b: seq<(K, V)>, k: K)
    requires Distinct(Keys(b))
    ensures Lookup(Merge(a, b), k) == if k in Keys(b) then Lookup(b, k) else Lookup(a, k)
  {
    PutAllLookup(a, Keys(b), Values(b), k);
    if k in Keys(b) {
      var i :| 0 <= i < |b| && Keys(b)[i] == k;
      LookupAt(b, i);
    }
  }

  /** In an array with distinct keys, the i-th key holds the i-th value. */
  lemma {:induction false} LookupAt<K, V>(m: seq<(K, V)>, i: nat)
    requires i < |m| && Distinct(Keys(m))
    ensures Lookup(m, m[i].0) == Some(m[i].1)
    decreases i
  {
    if i > 0 {
      assert Keys(m)[0] != Keys(m)[i];
      assert Keys(m[1..]) == Keys(m)[1..];
      LookupAt(m[1..], i - 1);
    }
  }
}
