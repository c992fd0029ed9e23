/** Order-preserving removal of duplicates: of the elements with one key, the first is kept. */
module FirstOccurrences {

  predicate HasKey<K(==), V>(xs: seq<V>, key: V -> K, k: K) {
    exists i :: 0 <= i < |xs| && key(xs[i]) == k
  }

  function Firsts<K(==), V>(xs: seq<V>, key: V -> K): seq<V> {
    if xs == [] then []
    else
      var n := |xs| - 1;
      var kept := Firsts(xs[..n], key);
      if HasKey(xs[..n], key, key(xs[n])) then kept else kept + [xs[n]]
  }

  lemma HasKeySnoc<K, V>(xs: seq<V>, key: V -> K, k: K)
    requires xs != []
    ensures HasKey(xs, key, k) <==> HasKey(xs[..|xs| - 1], key, k) || key(xs[|xs| - 1]) == k
  {
    var before := xs[..|xs| - 1];
    if i :| 0 <= i < |before| && key(before[i]) == k {
      assert key(xs[i]) == k;
    }
    if i :| 0 <= i < |xs| && key(xs[i]) == k {
      if i < |before| { assert key(before[i]) == k; }
    }
  }

  lemma {:induction false} FirstsSameKeys<K, V>(xs: seq<V>, key: V -> K, k: K)
    ensures HasKey(Firsts(xs, key), key, k) <==> HasKey(xs, key, k)
  {
    if xs != [] {
      var n := |xs| - 1;
      var kept := Firsts(xs[..n], key);
      FirstsSameKeys(xs[..n], key, k);
      HasKeySnoc(xs, key, k);
      if !HasKey(xs[..n], key, key(xs[n])) {
        assert (kept + [xs[n]])[..|kept|] == kept;
        HasKeySnoc(kept + [xs[n]], key, k);
      }
    }
  }

  /** No key is kept twice. */
  lemma {:induction false} FirstsDistinct<K, V>(xs: seq<V>, key: V -> K)
    ensures forall i, j :: 0 <= i < j < |Firsts(xs, key)| ==> key(Firsts(xs, key)[i]) != key(Firsts(xs, key)[j])
  {
    if xs != [] {
      var n := |xs| - 1;
      FirstsDistinct(xs[..n], key);
      FirstsSameKeys(xs[..n], key, key(xs[n]));
    }
  }

  /** `x` sits at a position of `xs` before which its key does not occur. */
  ghost predicate FirstWithKey<K, V>(xs: seq<V>, key: V -> K, x: V) {
    exists at :: 0 <= at < |xs| && xs[at] == x && !HasKey(xs[..at], key, key(x))
  }

  /** What is kept is in each case the first occurrence ... */
  lemma {:induction false} FirstsAreFirst<K, V>(xs: seq<V>, key: V -> K, i: nat)
    requires i < |Firsts(xs, key)|
    ensures FirstWithKey(xs, key, Firsts(xs, key)[i])
  {
    var n := |xs| - 1;
    var kept := Firsts(xs[..n], key);
    if i < |kept| {
      FirstsAreFirst(xs[..n], key, i);
      var at :| 0 <= at < n && xs[..n][at] == kept[i] && !HasKey(xs[..n][..at], key, key(kept[i]));
      assert xs[..n][..at] == xs[..at];
    }
  }

  /** ... and reading on only ever appends, so the order of arrival is kept. */
  lemma {:induction false} FirstsOfPrefix<K, V>(xs: seq<V>, key: V -> K, n: nat)
    requires n <= |xs|
    ensures Firsts(xs[..n], key) <= Firsts(xs, key)
    decreases |xs| - n
  {
    if n < |xs| {
      assert xs[..n + 1][..n] == xs[..n];
      FirstsOfPrefix(xs, key, n + 1);
    } else {
      assert xs[..n] == xs;
    }
  }
}
