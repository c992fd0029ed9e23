/**
 The bounded least-recently-used map.  `Step` is one operation on the underlying
 insertion-ordered map; the class performs it in place, eviction loop included.

 A stored value may itself be `undefined` (None): such a key is present, yet reading
 it neither reports a hit nor refreshes it.
 */
module LruMaps {
  import opened Wrappers
  import opened Sizes
  import opened OrderedMaps

  type Store<K, V> = OrderedMap<K, Option<V>>

  // ---------------------------------------------------------------- specification

  datatype Op<K, V> = Get(key: K) | Set(key: K, value: Option<V>) | Delete(key: K) | Clear

  /** What reading `k` answers: absent and stored-undefined look the same. */
  function Lookup<K, V>(vals: map<K, Option<V>>, k: K): Option<V> {
    if k in vals then vals[k] else None
  }

  /** Move `k` to the most recently used end, with value `v`. */
  function Refresh<K, V>(m: Store<K, V>, k: K, v: Option<V>): Store<K, V> {
    m.Delete(k).Put(k, v)
  }

  /** Make room for one more entry. */
  function MakeRoom<K, V>(cap: int, m: Store<K, V>): Store<K, V> {
    if cap <= m.Size() && m.keys != [] then m.Delete(m.keys[0]) else m
  }

  function Step<K, V>(cap: int, m: Store<K, V>, op: Op<K, V>): Store<K, V> {
    match op
    case Get(k) => if Lookup(m.vals, k).Some? then Refresh(m, k, m.vals[k]) else m
    case Set(k, v) => MakeRoom(cap, m.Delete(k)).Put(k, v)
    case Delete(k) => m.Delete(k)
    case Clear => Empty()
  }

  function Run<K, V>(cap: int, ops: seq<Op<K, V>>): Store<K, V> {
    if ops == [] then Empty() else Step(cap, Run(cap, ops[..|ops| - 1]), ops[|ops| - 1])
  }

  ghost predicate Good<K, V>(cap: int, m: Store<K, V>) {
    1 <= cap && m.Valid() && m.Size() <= cap
  }

  lemma RefreshGood<K, V>(m: Store<K, V>, k: K, v: Option<V>)
    requires m.Valid() && k in m.vals
    ensures Refresh(m, k, v).Valid()
    ensures Refresh(m, k, v) == OrderedMap(Restrict(m.keys, m.vals.Keys - {k}) + [k], m.vals[k := v])
    ensures Refresh(m, k, v).Size() == m.Size()
  {
    DeleteValid(m, k);
    PutNewValid(m.Delete(k), k, v);
  }

  lemma MakeRoomGood<K, V>(cap: int, m: Store<K, V>)
    requires Good(cap, m)
    ensures MakeRoom(cap, m).Valid() && MakeRoom(cap, m).Size() < cap
    ensures MakeRoom(cap, m).vals.Keys <= m.vals.Keys
    ensures MakeRoom(cap, m).Size() == if m.Size() == cap then cap - 1 else m.Size()
  {
    if cap <= m.Size() {
      DeleteFirst(m);
    }
  }

  lemma StepGood<K, V>(cap: int, m: Store<K, V>, op: Op<K, V>)
    requires Good(cap, m)
    ensures Good(cap, Step(cap, m, op))
  {
    match op
    case Get(k) =>
      if Lookup(m.vals, k).Some? { RefreshGood(m, k, m.vals[k]); }
    case Set(k, v) =>
      DeleteValid(m, k);
      var a := m.Delete(k);
      MakeRoomGood(cap, a);
      PutNewValid(MakeRoom(cap, a), k, v);
    case Delete(k) =>
      DeleteValid(m, k);
    case Clear =>
  }

  /** The capacity is never exceeded, whatever the operations. */
  lemma {:induction false} RunGood<K, V>(cap: int, ops: seq<Op<K, V>>)
    requires 1 <= cap
    ensures Good(cap, Run(cap, ops))
  {
    if ops != [] {
      RunGood(cap, ops[..|ops| - 1]);
      StepGood(cap, Run(cap, ops[..|ops| - 1]), ops[|ops| - 1]);
    }
  }

  // ---------------------------------------------------------------- inclusion

  /** `s` is what remains of `l` after removing some keys: same order, same values. */
  ghost predicate Sub<K, V>(s: Store<K, V>, l: Store<K, V>) {
    && s.Valid() && l.Valid()
    && s.vals.Keys <= l.vals.Keys
    && s.keys == Restrict(l.keys, s.vals.Keys)
    && forall k <- s.vals.Keys :: s.vals[k] == l.vals[k]
  }

  lemma DeleteSmaller<K, V>(s: Store<K, V>, l: Store<K, V>, k: K)
    requires Sub(s, l)
    ensures Sub(s.Delete(k), l)
  {
    DeleteValid(s, k);
    RestrictTwice(l.keys, s.vals.Keys, s.vals.Keys - {k});
    assert s.vals.Keys * (s.vals.Keys - {k}) == s.Delete(k).vals.Keys;
  }

  lemma DeleteLarger<K, V>(s: Store<K, V>, l: Store<K, V>, k: K)
    requires Sub(s, l) && k !in s.vals
    ensures Sub(s, l.Delete(k))
  {
    DeleteValid(l, k);
    RestrictTwice(l.keys, l.vals.Keys - {k}, s.vals.Keys);
    assert (l.vals.Keys - {k}) * s.vals.Keys == s.vals.Keys;
  }

  lemma DeleteBoth<K, V>(s: Store<K, V>, l: Store<K, V>, k: K)
    requires Sub(s, l)
    ensures Sub(s.Delete(k), l.Delete(k))
  {
    DeleteValid(s, k);
    DeleteSmaller(s, l, k);
    DeleteLarger(s.Delete(k), l, k);
  }

  lemma PutBoth<K, V>(s: Store<K, V>, l: Store<K, V>, k: K, v: Option<V>)
    requires Sub(s, l) && k !in l.vals
    ensures Sub(s.Put(k, v), l.Put(k, v))
  {
    PutNewValid(s, k, v);
    PutNewValid(l, k, v);
    var keep := s.Put(k, v).vals.Keys;
    assert keep == s.vals.Keys + {k};
    assert k !in Elems(l.keys);
    RestrictWithNew(l.keys, s.vals.Keys, k);
  }

  lemma RestrictWithNew<K>(keys: seq<K>, held: set<K>, k: K)
    requires k !in Elems(keys)
    ensures Restrict(keys + [k], held + {k}) == Restrict(keys, held) + [k]
  {
    RestrictAppend(keys, [k], held + {k});
    RestrictCong(keys, held + {k}, held);
  }

  lemma MakeRoomBoth<K, V>(cs: int, s: Store<K, V>, cl: int, l: Store<K, V>)
    requires cs <= cl && Good(cs, s) && Good(cl, l) && Sub(s, l)
    requires l.Size() - s.Size() <= cl - cs
    ensures Sub(MakeRoom(cs, s), MakeRoom(cl, l))
    ensures MakeRoom(cl, l).Size() - MakeRoom(cs, s).Size() <= cl - cs
  {
    MakeRoomGood(cs, s);
    MakeRoomGood(cl, l);
    if s.Size() == cs {
      DeleteSmaller(s, l, s.keys[0]);
    }
    if l.Size() == cl {
      assert l.keys[0] in s.vals ==> s.keys[0] == l.keys[0];
      DeleteValid(s, s.keys[0]);
      DeleteLarger(MakeRoom(cs, s), l, l.keys[0]);
    }
  }

  ghost predicate Inclusion<K, V>(cs: int, s: Store<K, V>, cl: int, l: Store<K, V>) {
    Good(cs, s) && Good(cl, l) && Sub(s, l) && l.Size() - s.Size() <= cl - cs
  }

  lemma SubSize<K, V>(s: Store<K, V>, l: Store<K, V>)
    requires Sub(s, l)
    ensures s.Size() <= l.Size()
  {}

  lemma {:induction false} InclusionStep<K, V>(cs: int, s: Store<K, V>, cl: int, l: Store<K, V>, op: Op<K, V>)
    requires cs <= cl && Inclusion(cs, s, cl, l)
    ensures Inclusion(cs, Step(cs, s, op), cl, Step(cl, l, op))
  {
    StepGood(cs, s, op);
    StepGood(cl, l, op);
    match op
    case Get(k) =>
      if Lookup(l.vals, k).Some? { InclusionHit(s, l, k); }
    case Set(k, v) =>
      InclusionSet(cs, s, cl, l, k, v);
    case Delete(k) =>
      DeleteValid(s, k);
      DeleteValid(l, k);
      DeleteBoth(s, l, k);
    case Clear =>
  }

  /** A hit of the larger map moves the key to the young end of whichever map holds it. */
  lemma InclusionHit<K, V>(s: Store<K, V>, l: Store<K, V>, k: K)
    requires Sub(s, l) && k in l.vals
    ensures Sub(if k in s.vals then Refresh(s, k, s.vals[k]) else s, Refresh(l, k, l.vals[k]))
    ensures Refresh(l, k, l.vals[k]).Size() == l.Size()
    ensures k in s.vals ==> Refresh(s, k, s.vals[k]).Size() == s.Size() && s.vals[k] == l.vals[k]
  {
    var v := l.vals[k];
    RefreshGood(l, k, v);
    DeleteValid(l, k);
    DeleteValid(s, k);
    if k in s.vals {
      assert k in s.vals.Keys;
      RefreshGood(s, k, v);
      DeleteBoth(s, l, k);
      PutBoth(s.Delete(k), l.Delete(k), k, v);
    } else {
      RestrictTwice(l.keys, l.vals.Keys - {k}, s.vals.Keys);
      assert (l.vals.Keys - {k}) * s.vals.Keys == s.vals.Keys;
      RestrictAppend(Restrict(l.keys, l.vals.Keys - {k}), [k], s.vals.Keys);
    }
  }

  lemma InclusionSet<K, V>(cs: int, s: Store<K, V>, cl: int, l: Store<K, V>, k: K, v: Option<V>)
    requires cs <= cl && Inclusion(cs, s, cl, l)
    ensures var s1, l1 := MakeRoom(cs, s.Delete(k)).Put(k, v), MakeRoom(cl, l.Delete(k)).Put(k, v);
            Sub(s1, l1) && l1.Size() - s1.Size() <= cl - cs
  {
    var s1, l1 := s.Delete(k), l.Delete(k);
    DeleteValid(s, k);
    DeleteValid(l, k);
    DeleteBoth(s, l, k);
    SubSize(s1, l1);
    if k in l.vals && k !in s.vals {
      // the larger map has room; the smaller one may have to make some
      MakeRoomGood(cs, s1);
      if s1.Size() == cs { DeleteSmaller(s1, l1, s1.keys[0]); }
      PutBoth(MakeRoom(cs, s1), l1, k, v);
      PutNewValid(MakeRoom(cs, s1), k, v);
      PutNewValid(l1, k, v);
    } else {
      MakeRoomBoth(cs, s1, cl, l1);
      MakeRoomGood(cs, s1);
      MakeRoomGood(cl, l1);
      PutBoth(MakeRoom(cs, s1), MakeRoom(cl, l1), k, v);
      PutNewValid(MakeRoom(cs, s1), k, v);
      PutNewValid(MakeRoom(cl, l1), k, v);
    }
  }

  /** LRU inclusion: after any common history, the smaller map is an ordered part of the larger. */
  lemma {:induction false} InclusionRun<K, V>(cs: int, cl: int, ops: seq<Op<K, V>>)
    requires 1 <= cs <= cl
    ensures Inclusion(cs, Run(cs, ops), cl, Run(cl, ops))
  {
    if ops != [] {
      var pre := ops[..|ops| - 1];
      InclusionRun(cs, cl, pre);
      InclusionStep(cs, Run(cs, pre), cl, Run(cl, pre), ops[|ops| - 1]);
    }
  }

  // ---------------------------------------------------------------- agreement with an unbounded map

  /** A plain dictionary driven by the same history. */
  function Unbounded<K, V>(ops: seq<Op<K, V>>): map<K, Option<V>> {
    if ops == [] then map[]
    else
      var m := Unbounded(ops[..|ops| - 1]);
      match ops[|ops| - 1]
      case Get(_) => m
      case Set(k, v) => m[k := v]
      case Delete(k) => m - {k}
      case Clear => map[]
  }

  /** Every entry the LRU map holds is the one an unbounded dictionary would hold. */
  lemma {:induction false} HitsAreLatest<K, V>(cap: int, ops: seq<Op<K, V>>)
    requires 1 <= cap
    ensures Run(cap, ops).vals.Keys <= Unbounded(ops).Keys
    ensures forall k <- Run(cap, ops).vals.Keys :: Run(cap, ops).vals[k] == Unbounded(ops)[k]
    ensures forall k <- Run(cap, ops).vals.Keys :: Lookup(Run(cap, ops).vals, k) == Lookup(Unbounded(ops), k)
  {
    if ops != [] {
      var pre := ops[..|ops| - 1];
      HitsAreLatest(cap, pre);
      RunGood(cap, pre);
      var m := Run(cap, pre);
      match ops[|ops| - 1]
      case Get(k) => if Lookup(m.vals, k).Some? { RefreshGood(m, k, m.vals[k]); }
      case Set(k, v) =>
        DeleteValid(m, k);
        MakeRoomGood(cap, m.Delete(k));
        PutNewValid(MakeRoom(cap, m.Delete(k)), k, v);
      case Delete(k) => DeleteValid(m, k);
      case Clear =>
    }
  }

  // ---------------------------------------------------------------- residency

  /** The keys more recently used than `k`. */
  function Newer<K(==)>(keys: seq<K>, k: K): set<K> {
    if keys == [] then {} else if keys[0] == k then Elems(keys[1..]) else Newer(keys[1..], k)
  }

  lemma {:induction false} NewerAppend<K>(keys: seq<K>, k: K, x: K)
    requires k in keys
    ensures Newer(keys + [x], k) == Newer(keys, k) + {x}
  {
    assert (keys + [x])[1..] == keys[1..] + [x];
    if keys[0] != k {
      NewerAppend(keys[1..], k, x);
    }
  }

  lemma {:induction false} NewerNone<K>(keys: seq<K>, k: K)
    requires k !in keys
    ensures Newer(keys + [k], k) == {}
  {
    if keys == [] {
      assert (keys + [k])[1..] == [];
    } else {
      assert (keys + [k])[1..] == keys[1..] + [k];
      NewerNone(keys[1..], k);
    }
  }

  lemma {:induction false} NewerRestrict<K>(keys: seq<K>, keep: set<K>, k: K)
    requires k in keep
    ensures Newer(Restrict(keys, keep), k) <= Newer(keys, k)
  {
    if keys != [] && keys[0] != k {
      NewerRestrict(keys[1..], keep, k);
    }
  }

  /** The key an operation can bring to the most recently used end. */
  function Used<K, V>(op: Op<K, V>): set<K> {
    if op.Get? || op.Set? then {op.key} else {}
  }

  function UsedBy<K, V>(ops: seq<Op<K, V>>): set<K> {
    if ops == [] then {} else UsedBy(ops[..|ops| - 1]) + Used(ops[|ops| - 1])
  }

  ghost predicate Keeps<K, V>(ops: seq<Op<K, V>>, k: K) {
    forall op <- ops :: !op.Clear? && op != Op<K, V>.Delete(k)
  }

  ghost predicate Resident<K, V>(m: Store<K, V>, k: K, others: set<K>) {
    k in m.vals && Newer(m.keys, k) <= others
  }

  lemma {:induction false} ResidentStep<K, V>(cap: int, m: Store<K, V>, k: K, others: set<K>, op: Op<K, V>)
    requires Good(cap, m) && Resident(m, k, others)
    requires !op.Clear? && op != Op<K, V>.Delete(k)
    requires |(others + Used(op)) - {k}| < cap
    ensures Resident(Step(cap, m, op), k, others + Used(op))
  {
    assert k in Elems(m.keys);
    match op
    case Get(j) =>
      if Lookup(m.vals, j).Some? {
        RefreshGood(m, j, m.vals[j]);
        ResidentRefresh(m, k, j);
      }
    case Set(j, v) =>
      DeleteValid(m, j);
      var a := m.Delete(j);
      MakeRoomGood(cap, a);
      var b := MakeRoom(cap, a);
      PutNewValid(b, j, v);
      if j == k {
        assert k !in Elems(b.keys);
        NewerNone(b.keys, k);
      } else {
        NewerRestrict(m.keys, m.vals.Keys - {j}, k);
        if a.Size() == cap {
          NotOldest(cap, a, k, j, others);
          NewerRestrict(a.keys, a.vals.Keys - {a.keys[0]}, k);
          DeleteValid(a, a.keys[0]);
        }
        assert k in Elems(b.keys);
        NewerAppend(b.keys, k, j);
      }
    case Delete(j) =>
      DeleteValid(m, j);
      NewerRestrict(m.keys, m.vals.Keys - {j}, k);
  }

  lemma ResidentRefresh<K, V>(m: Store<K, V>, k: K, j: K)
    requires m.Valid() && k in m.vals && j in m.vals
    ensures Newer(Restrict(m.keys, m.vals.Keys - {j}) + [j], k) <= Newer(m.keys, k) + {j}
  {
    var r := Restrict(m.keys, m.vals.Keys - {j});
    if j == k {
      assert k !in Elems(r);
      NewerNone(r, k);
    } else {
      assert k in Elems(r);
      NewerRestrict(m.keys, m.vals.Keys - {j}, k);
      NewerAppend(r, k, j);
    }
  }

  /** A full map evicts `k` only if `cap` other keys were used since `k` was. */
  lemma NotOldest<K, V>(cap: int, a: Store<K, V>, k: K, j: K, others: set<K>)
    requires Good(cap, a) && a.Size() == cap && k in a.vals && j !in a.vals && j != k
    requires Newer(a.keys, k) <= others && |(others + {j}) - {k}| < cap
    ensures a.keys[0] != k
  {
    if a.keys[0] == k {
      var rest := a.keys[1..];
      assert Distinct(rest);
      DistinctSize(rest);
      assert j !in Elems(a.keys) && j !in Elems(rest) && k !in Elems(rest);
      var seen := Elems(rest) + {j};
      assert seen <= (others + {j}) - {k};
      SubsetSize(seen, (others + {j}) - {k});
      assert false;
    }
  }

  lemma UsedByMonotone<K, V>(post: seq<Op<K, V>>, n: nat)
    requires n <= |post|
    ensures UsedBy(post[..n]) <= UsedBy(post)
    decreases |post| - n
  {
    if n < |post| {
      assert post[..n + 1][..n] == post[..n];
      UsedByMonotone(post, n + 1);
    } else {
      assert post[..n] == post;
    }
  }

  /**
   A key that was just written (or read with a hit) stays for as long as fewer than
   `cap` other distinct keys are used and nobody deletes it.
   */
  lemma {:induction false} ResidencyRun<K, V>(cap: int, pre: seq<Op<K, V>>, k: K, post: seq<Op<K, V>>)
    requires 1 <= cap && pre != [] && Keeps(post, k)
    requires match pre[|pre| - 1]
             case Set(j, _) => j == k
             case Get(j) => j == k && Lookup(Run(cap, pre[..|pre| - 1]).vals, k).Some?
             case _ => false
    requires |UsedBy(post) - {k}| < cap
    ensures k in Run(cap, pre + post).vals
    ensures Newer(Run(cap, pre + post).keys, k) <= UsedBy(post)
    decreases |post|
  {
    if post == [] {
      assert pre + post == pre;
      var m := Run(cap, pre[..|pre| - 1]);
      RunGood(cap, pre[..|pre| - 1]);
      DeleteValid(m, k);
      match pre[|pre| - 1]
      case Set(_, v) =>
        MakeRoomGood(cap, m.Delete(k));
        var b := MakeRoom(cap, m.Delete(k));
        PutNewValid(b, k, v);
        assert k !in Elems(b.keys);
        NewerNone(b.keys, k);
      case Get(_) =>
        RefreshGood(m, k, m.vals[k]);
        assert k !in Elems(Restrict(m.keys, m.vals.Keys - {k}));
        NewerNone(Restrict(m.keys, m.vals.Keys - {k}), k);
    } else {
      var n := |post| - 1;
      assert (pre + post)[..|pre + post| - 1] == pre + post[..n];
      UsedByMonotone(post, n);
      SubsetSize(UsedBy(post[..n]) - {k}, UsedBy(post) - {k});
      ResidencyRun(cap, pre, k, post[..n]);
      RunGood(cap, pre + post[..n]);
      ResidentStep(cap, Run(cap, pre + post[..n]), k, UsedBy(post[..n]), post[n]);
    }
  }

  // ---------------------------------------------------------------- the class

  class LruMap<K(==), V> {
    var store: Store<K, V>
    const maxSize: int

    ghost predicate Valid()
      reads this
    {
      Good(maxSize, store)
    }

    constructor (maxSize: int)
      requires 1 <= maxSize
      ensures Valid() && store == Empty() && this.maxSize == maxSize
    {
      this.maxSize := maxSize;
      store := Empty();
    }

    /** Building a map is refused when it could hold nothing. */
    static method Create(maxSize: int) returns (r: Result<LruMap<K, V>, string>)
      ensures r.Ok? <==> 1 <= maxSize
      ensures r.Ok? ==> fresh(r.value) && r.value.Valid() && r.value.store == Empty() && r.value.maxSize == maxSize
    {
      if maxSize < 1 {
        return Err("LruMap maxSize must be >= 1");
      }
      var m := new LruMap<K, V>(maxSize);
      return Ok(m);
    }

    method Get(key: K) returns (value: Option<V>)
      requires Valid()
      modifies this
      ensures Valid() && store == Step(maxSize, old(store), Op<K, V>.Get(key))
      ensures value == Lookup(old(store).vals, key)
    {
      StepGood(maxSize, store, Op<K, V>.Get(key));
      value := Lookup(store.vals, key);
      if value.Some? {
        store := store.Delete(key);
        store := store.Put(key, value);
      }
    }

    method Set(key: K, value: Option<V>)
      requires Valid()
      modifies this
      ensures Valid() && store == Step(maxSize, old(store), Op<K, V>.Set(key, value))
    {
      StepGood(maxSize, store, Op<K, V>.Set(key, value));
      DeleteValid(store, key);
      if key in store.vals {
        store := store.Delete(key);
      }
      ghost var without := store;
      MakeRoomGood(maxSize, without);
      while maxSize <= store.Size()
        invariant store == without || store == MakeRoom(maxSize, without)
        decreases store.Size()
      {
        DeleteFirst(store);
        store := store.Delete(store.keys[0]);
      }
      store := store.Put(key, value);
    }

    method Has(key: K) returns (present: bool)
      requires Valid()
      ensures present <==> key in store.keys
    {
      assert key in Elems(store.keys) <==> key in store.vals.Keys;
      present := key in store.vals;
    }

    method Delete(key: K) returns (present: bool)
      requires Valid()
      modifies this
      ensures Valid() && store == Step(maxSize, old(store), Op<K, V>.Delete(key))
      ensures present <==> key in old(store).vals
    {
      StepGood(maxSize, store, Op<K, V>.Delete(key));
      present := key in store.vals;
      store := store.Delete(key);
    }

    method Clear()
      requires Valid()
      modifies this
      ensures Valid() && store == Step(maxSize, old(store), Op<K, V>.Clear)
    {
      store := Empty();
    }
  }
}
