/**
 The insertion-ordered map of JavaScript, as a value: `keys` in insertion order and
 the values they carry.  Deleting a key closes the gap; writing a present key keeps
 its place; writing a new key appends it.
 */
module OrderedMaps {

  function Elems<K>(s: seq<K>): set<K> {
    set x | x in s
  }

  ghost predicate Distinct<K>(s: seq<K>) {
    forall i, j :: 0 <= i < j < |s| ==> s[i] != s[j]
  }

  /** The subsequence of `s` made of the members of `keep`, in the order of `s`. */
  function Restrict<K(==)>(s: seq<K>, keep: set<K>): (r: seq<K>)
    ensures |r| <= |s|
    ensures Elems(r) == Elems(s) * keep
  {
    if s == [] then []
    else
      assert Elems(s) == {s[0]} + Elems(s[1..]);
      var rest := Restrict(s[1..], keep);
      if s[0] in keep then
        assert Elems([s[0]] + rest) == {s[0]} + Elems(rest);
        [s[0]] + rest
      else rest
  }

  lemma {:induction false} RestrictAppend<K>(a: seq<K>, b: seq<K>, keep: set<K>)
    ensures Restrict(a + b, keep) == Restrict(a, keep) + Restrict(b, keep)
  {
    if a == [] {
      assert a + b == b;
    } else {
      assert (a + b)[1..] == a[1..] + b;
      RestrictAppend(a[1..], b, keep);
    }
  }

  lemma {:induction false} RestrictTwice<K>(s: seq<K>, a: set<K>, b: set<K>)
    ensures Restrict(Restrict(s, a), b) == Restrict(s, a * b)
  {
    if s != [] {
      RestrictTwice(s[1..], a, b);
      RestrictAppend(if s[0] in a then [s[0]] else [], Restrict(s[1..], a), b);
    }
  }

  /** Only membership of the elements that occur matters. */
  lemma {:induction false} RestrictCong<K>(s: seq<K>, a: set<K>, b: set<K>)
    requires forall x :: x in s ==> (x in a <==> x in b)
    ensures Restrict(s, a) == Restrict(s, b)
  {
    if s != [] {
      RestrictCong(s[1..], a, b);
    }
  }

  lemma {:induction false} RestrictAll<K>(s: seq<K>, a: set<K>)
    requires Elems(s) <= a
    ensures Restrict(s, a) == s
  {
    if s != [] {
      assert s[0] in Elems(s);
      assert Elems(s[1..]) <= Elems(s);
      RestrictAll(s[1..], a);
    }
  }

  lemma {:induction false} RestrictDistinct<K>(s: seq<K>, keep: set<K>)
    requires Distinct(s)
    ensures Distinct(Restrict(s, keep))
  {
    if s != [] {
      RestrictDistinct(s[1..], keep);
      assert s[0] !in Elems(s[1..]);
      assert s[0] !in Elems(Restrict(s[1..], keep));
    }
  }

  /** Dropping the first of distinct elements is restricting to all the others. */
  lemma {:induction false} RestrictButFirst<K>(s: seq<K>)
    requires s != [] && Distinct(s)
    ensures Restrict(s, Elems(s) - {s[0]}) == s[1..]
  {
    RestrictAll(s[1..], Elems(s) - {s[0]});
  }

  lemma {:induction false} DistinctSize<K>(s: seq<K>)
    requires Distinct(s)
    ensures |Elems(s)| == |s|
  {
    if s != [] {
      DistinctSize(s[1..]);
      assert Elems(s) == {s[0]} + Elems(s[1..]);
    } else {
      assert Elems(s) == {};
    }
  }

  datatype OrderedMap<K(==), V> = OrderedMap(keys: seq<K>, vals: map<K, V>) {

    ghost predicate Valid() {
      Distinct(keys) && Elems(keys) == vals.Keys
    }

    function Size(): nat {
      |keys|
    }

    function Delete(k: K): OrderedMap<K, V> {
      if k in vals then OrderedMap(Restrict(keys, vals.Keys - {k}), vals - {k}) else this
    }

    function Put(k: K, v: V): OrderedMap<K, V> {
      OrderedMap(if k in vals then keys else keys + [k], vals[k := v])
    }
  }

  function Empty<K(==), V>(): OrderedMap<K, V> {
    OrderedMap([], map[])
  }

  lemma SizeIsCardinality<K, V>(m: OrderedMap<K, V>)
    requires m.Valid()
    ensures m.Size() == |m.vals|
  {
    DistinctSize(m.keys);
  }

  lemma DeleteValid<K, V>(m: OrderedMap<K, V>, k: K)
    requires m.Valid()
    ensures m.Delete(k).Valid()
    ensures m.Delete(k) == OrderedMap(Restrict(m.keys, m.vals.Keys - {k}), m.vals - {k})
    ensures m.Delete(k).Size() == m.Size() - (if k in m.vals then 1 else 0)
  {
    RestrictDistinct(m.keys, m.vals.Keys - {k});
    if k in m.vals {
      assert Elems(m.Delete(k).keys) == m.vals.Keys - {k};
    } else {
      RestrictAll(m.keys, m.vals.Keys - {k});
      assert m.vals - {k} == m.vals;
    }
    assert m.Delete(k).Valid();
    SizeIsCardinality(m);
    SizeIsCardinality(m.Delete(k));
    assert (m.vals - {k}).Keys == m.vals.Keys - {k};
    assert |m.vals - {k}| == |(m.vals - {k}).Keys| && |m.vals| == |m.vals.Keys|;
  }

  lemma PutNewValid<K, V>(m: OrderedMap<K, V>, k: K, v: V)
    requires m.Valid() && k !in m.vals
    ensures m.Put(k, v).Valid()
    ensures m.Put(k, v) == OrderedMap(m.keys + [k], m.vals[k := v])
  {
    assert k !in Elems(m.keys);
    assert Elems(m.keys + [k]) == Elems(m.keys) + {k};
  }

  lemma DeleteFirst<K, V>(m: OrderedMap<K, V>)
    requires m.Valid() && m.keys != []
    ensures m.Delete(m.keys[0]).keys == m.keys[1..]
    ensures m.Delete(m.keys[0]).Valid()
  {
    assert m.keys[0] in Elems(m.keys);
    RestrictButFirst(m.keys);
    DeleteValid(m, m.keys[0]);
  }
}
