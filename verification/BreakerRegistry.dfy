/**
 The per-domain circuit-breaker registry: an insertion-ordered map whose entries carry
 the time of last use, with a linear scan to find the entry to evict.  Breakers are
 opaque objects, identified by the order of their creation.
 */
module CircuitBreakerRegistries {
  import opened Wrappers
  import opened OrderedMaps
  import LruMaps

  type Policy = nat

  datatype Entry = Entry(policy: Policy, lastUsed: int)

  type Entries = OrderedMap<string, Entry>

  // ---------------------------------------------------------------- specification

  /** The first of the `n` leading keys whose last use is earliest. */
  function FirstOldest(m: Entries, n: nat): (i: nat)
    requires 0 < n <= |m.keys| && m.Valid()
    ensures i < n
    ensures forall j :: 0 <= j < n ==> m.keys[j] in m.vals
    ensures forall j :: 0 <= j < n ==> m.vals[m.keys[i]].lastUsed <= m.vals[m.keys[j]].lastUsed
    ensures forall j :: 0 <= j < i ==> m.vals[m.keys[i]].lastUsed < m.vals[m.keys[j]].lastUsed
  {
    assert forall j :: 0 <= j < n ==> m.keys[j] in Elems(m.keys);
    if n == 1 then 0
    else
      var i := FirstOldest(m, n - 1);
      if m.vals[m.keys[n - 1]].lastUsed < m.vals[m.keys[i]].lastUsed then n - 1 else i
  }

  function Evicted(m: Entries): Entries
    requires m.Valid()
  {
    if m.keys == [] then m else m.Delete(m.keys[FirstOldest(m, |m.keys|)])
  }

  datatype State = State(entries: Entries, created: nat)

  datatype Event = Use(domain: string, now: int) | ClearAll

  function Step(maxDomains: int, s: State, e: Event): State
    requires s.entries.Valid()
  {
    match e
    case ClearAll => s.(entries := Empty())
    case Use(d, now) =>
      if d in s.entries.vals then
        s.(entries := s.entries.Put(d, s.entries.vals[d].(lastUsed := now)))
      else
        var room := if maxDomains <= s.entries.Size() then Evicted(s.entries) else s.entries;
        State(room.Put(d, Entry(s.created, now)), s.created + 1)
  }

  lemma EvictedValid(m: Entries)
    requires m.Valid()
    ensures Evicted(m).Valid() && Evicted(m).vals.Keys <= m.vals.Keys
    ensures m.keys != [] ==> Evicted(m).Size() == m.Size() - 1
  {
    if m.keys != [] {
      var k := m.keys[FirstOldest(m, |m.keys|)];
      assert k in Elems(m.keys);
      DeleteValid(m, k);
    }
  }

  lemma StepValid(maxDomains: int, s: State, e: Event)
    requires s.entries.Valid()
    ensures Step(maxDomains, s, e).entries.Valid()
  {
    if e.Use? {
      var m := s.entries;
      if e.domain in m.vals {
        assert Elems(m.keys) == m.vals.Keys + {e.domain};
      } else {
        EvictedValid(m);
        var room := if maxDomains <= m.Size() then Evicted(m) else m;
        PutNewValid(room, e.domain, Entry(s.created, e.now));
      }
    }
  }

  ghost function Run(maxDomains: int, es: seq<Event>): (s: State)
    ensures s.entries.Valid()
  {
    if es == [] then State(Empty(), 0)
    else
      var s := Run(maxDomains, es[..|es| - 1]);
      StepValid(maxDomains, s, es[|es| - 1]);
      Step(maxDomains, s, es[|es| - 1])
  }

  // ---------------------------------------------------------------- the same policy on an LruMap

  datatype LruState = LruState(store: LruMaps.Store<string, Policy>, created: nat)

  /** Get-else-set on an LruMap. */
  function LruStep(cap: int, s: LruState, e: Event): LruState {
    match e
    case ClearAll => s.(store := Empty())
    case Use(d, _) =>
      if LruMaps.Lookup(s.store.vals, d).Some? then
        s.(store := LruMaps.Step(cap, s.store, LruMaps.Get(d)))
      else
        LruState(LruMaps.Step(cap, s.store, LruMaps.Set(d, Some(s.created))), s.created + 1)
  }

  function LruRun(cap: int, es: seq<Event>): LruState {
    if es == [] then LruState(Empty(), 0) else LruStep(cap, LruRun(cap, es[..|es| - 1]), es[|es| - 1])
  }

  /** Every use carries a later time than all uses before it. */
  ghost predicate StrictClock(es: seq<Event>) {
    forall i, j :: 0 <= i < j < |es| && es[i].Use? && es[j].Use? ==> es[i].now < es[j].now
  }

  /** Used earlier or, in the same millisecond, inserted earlier: what the scan takes first. */
  predicate Older(a: Entry, b: Entry) {
    a.lastUsed < b.lastUsed || (a.lastUsed == b.lastUsed && a.policy < b.policy)
  }

  ghost predicate Ascending(keys: seq<string>, held: map<string, Entry>) {
    && (forall k <- keys :: k in held)
    && forall i, j :: 0 <= i < j < |keys| ==> Older(held[keys[i]], held[keys[j]])
  }

  lemma {:induction false} AscendingRestrict(keys: seq<string>, keep: set<string>, held: map<string, Entry>)
    requires Ascending(keys, held)
    ensures Ascending(Restrict(keys, keep), held)
  {
    if keys != [] {
      var rest := Restrict(keys[1..], keep);
      AscendingRestrict(keys[1..], keep, held);
      forall x | x in rest ensures x in held && Older(held[keys[0]], held[x]) {
        assert x in Elems(rest) && x in Elems(keys[1..]);
      }
      forall x | x in Restrict(keys, keep) ensures x in held {
        assert x in Elems(Restrict(keys, keep));
      }
    }
  }

  /** Breakers are numbered in the order of insertion. */
  ghost predicate Numbered(r: State) {
    && r.entries.Valid()
    && (forall d <- r.entries.vals.Keys :: r.entries.vals[d].policy < r.created)
    && Rising(r.entries.keys, r.entries.vals)
  }

  ghost predicate Rising(keys: seq<string>, held: map<string, Entry>) {
    && (forall k <- keys :: k in held)
    && forall i, j :: 0 <= i < j < |keys| ==> held[keys[i]].policy < held[keys[j]].policy
  }

  /** The two structures hold the same domains with the same breakers, last used at `last` or before. */
  ghost predicate Same(cap: int, r: State, l: LruState, last: int) {
    && LruMaps.Good(cap, l.store) && Numbered(r)
    && r.created == l.created
    && r.entries.vals.Keys == l.store.vals.Keys
    && (forall d <- r.entries.vals.Keys :: l.store.vals[d] == Some(r.entries.vals[d].policy))
    && (forall d <- r.entries.vals.Keys :: r.entries.vals[d].lastUsed <= last)
  }

  /** And the LruMap is sorted as the scan goes. */
  ghost predicate Mirrors(cap: int, r: State, l: LruState, last: int) {
    Same(cap, r, l, last) && Ascending(l.store.keys, r.entries.vals)
  }

  /** No other domain that was inserted later was used in the same millisecond. */
  ghost predicate TieFree(r: State, d: string, now: int)
    requires d in r.entries.vals
  {
    forall z <- r.entries.vals.Keys :: z != d ==> Older(r.entries.vals[z], Entry(r.entries.vals[d].policy, now))
  }

  lemma SameSizes(cap: int, r: State, l: LruState, last: int)
    requires Same(cap, r, l, last)
    ensures r.entries.Size() == l.store.Size()
  {
    DistinctSize(r.entries.keys);
    DistinctSize(l.store.keys);
  }

  /** The scan takes the oldest: nothing held is older. */
  lemma ScanFindsOldest(r: State, d: string)
    requires Numbered(r) && d in r.entries.vals
    ensures r.entries.keys != []
    ensures var k := r.entries.keys[FirstOldest(r.entries, |r.entries.keys|)];
            k in r.entries.vals && (k != d ==> Older(r.entries.vals[k], r.entries.vals[d]))
  {
    var m := r.entries;
    assert d in m.vals.Keys && d in Elems(m.keys);
    var f := FirstOldest(m, |m.keys|);
    var j :| 0 <= j < |m.keys| && m.keys[j] == d;
    assert m.keys[f] in Elems(m.keys);
    if f < j { assert m.vals[m.keys[f]].policy < m.vals[m.keys[j]].policy; }
  }

  lemma AscendingAppend(keys: seq<string>, held: map<string, Entry>, k: string, e: Entry)
    requires Ascending(keys, held) && k !in keys
    requires forall x <- keys :: Older(held[x], e)
    ensures Ascending(keys + [k], held[k := e])
  {
    forall i, j | 0 <= i < j < |keys + [k]|
      ensures Older(held[k := e][(keys + [k])[i]], held[k := e][(keys + [k])[j]]) {
      assert keys[i] in keys && keys[i] != k;
      if j < |keys| { assert keys[j] in keys && keys[j] != k; }
    }
  }

  lemma AscendingWithout(keys: seq<string>, held: map<string, Entry>, k: string)
    requires Ascending(keys, held) && k !in keys
    ensures Ascending(keys, held - {k})
  {
    forall i, j | 0 <= i < j < |keys| ensures Older((held - {k})[keys[i]], (held - {k})[keys[j]]) {
      assert keys[i] in keys && keys[j] in keys;
    }
  }

  // ---------------------------------------------------------------- a hit

  /** A hit leaves the same domains held; the LruMap moves the key to the young end. */
  lemma SameHit(maxDomains: int, r: State, l: LruState, last: int, d: string, now: int)
    requires Same(Cap(maxDomains), r, l, last) && last <= now && d in r.entries.vals
    ensures var r', l' := Step(maxDomains, r, Use(d, now)), LruStep(Cap(maxDomains), l, Use(d, now));
            && Same(Cap(maxDomains), r', l', now)
            && r'.entries.keys == r.entries.keys
                && r'.entries.vals == r.entries.vals[d := Entry(r.entries.vals[d].policy, now)]
            && l'.store.keys == Restrict(l.store.keys, l.store.vals.Keys - {d}) + [d]
  {
    assert d in r.entries.vals.Keys;
    StepValid(maxDomains, r, Use(d, now));
    LruHit(Cap(maxDomains), l, d, now);
  }

  lemma LruHit(cap: int, l: LruState, d: string, now: int)
    requires LruMaps.Good(cap, l.store) && d in l.store.vals && l.store.vals[d].Some?
    ensures var l' := LruStep(cap, l, Use(d, now));
            && LruMaps.Good(cap, l'.store) && l'.created == l.created
            && l'.store == OrderedMap(Restrict(l.store.keys, l.store.vals.Keys - {d}) + [d], l.store.vals)
  {
    LruMaps.StepGood(cap, l.store, LruMaps.Op<string, Policy>.Get(d));
    LruMaps.RefreshGood(l.store, d, l.store.vals[d]);
    assert l.store.vals[d := l.store.vals[d]] == l.store.vals;
  }

  /** A hit keeps the LruMap sorted if and only if it is free of such a tie. */
  lemma MirrorHit(maxDomains: int, r: State, l: LruState, last: int, d: string, now: int)
    requires Mirrors(Cap(maxDomains), r, l, last) && last <= now && d in r.entries.vals
    ensures Same(Cap(maxDomains), Step(maxDomains, r, Use(d, now)), LruStep(Cap(maxDomains), l, Use(d, now)), now)
    ensures Mirrors(Cap(maxDomains), Step(maxDomains, r, Use(d, now)), LruStep(Cap(maxDomains), l, Use(d, now)), now)
            <==> TieFree(r, d, now)
  {
    SameHit(maxDomains, r, l, last, d, now);
    var keep := l.store.vals.Keys - {d};
    AscendingRestrict(l.store.keys, keep, r.entries.vals);
    SortedHitIff(Restrict(l.store.keys, keep), r.entries.vals, d, now);
  }

  lemma SortedHitIff(kept: seq<string>, held: map<string, Entry>, d: string, now: int)
    requires Ascending(kept, held) && d in held && Elems(kept) == held.Keys - {d}
    ensures Ascending(kept + [d], held[d := Entry(held[d].policy, now)]) <==>
            forall z <- held.Keys :: z != d ==> Older(held[z], Entry(held[d].policy, now))
  {
    var e := Entry(held[d].policy, now);
    assert d !in kept by { assert d !in Elems(kept); }
    if forall z <- held.Keys :: z != d ==> Older(held[z], e) {
      forall x | x in kept ensures Older(held[x], e) { assert x in Elems(kept); }
      AscendingAppend(kept, held, d, e);
    } else {
      var z :| z in held.Keys && z != d && !Older(held[z], e);
      assert z in Elems(kept);
      var i :| 0 <= i < |kept| && kept[i] == z;
      assert !Older(held[d := e][(kept + [d])[i]], held[d := e][(kept + [d])[|kept|]]);
    }
  }

  // ---------------------------------------------------------------- a miss

  lemma NumberedDelete(r: State, k: string)
    requires Numbered(r) && k in r.entries.vals
    ensures Numbered(r.(entries := r.entries.Delete(k)))
  {
    DeleteValid(r.entries, k);
    RisingRestrict(r.entries.keys, r.entries.vals.Keys - {k}, r.entries.vals);
    var m := r.entries.Delete(k);
    assert k !in Elems(m.keys);
    RisingWithout(m.keys, r.entries.vals, k);
  }

  lemma RisingWithout(keys: seq<string>, held: map<string, Entry>, k: string)
    requires Rising(keys, held) && k !in keys
    ensures Rising(keys, held - {k})
  {
    forall i, j | 0 <= i < j < |keys| ensures (held - {k})[keys[i]].policy < (held - {k})[keys[j]].policy {
      assert keys[i] in keys && keys[j] in keys;
    }
  }

  lemma {:induction false} RisingRestrict(keys: seq<string>, keep: set<string>, held: map<string, Entry>)
    requires Rising(keys, held)
    ensures Rising(Restrict(keys, keep), held)
  {
    if keys != [] {
      var rest := Restrict(keys[1..], keep);
      RisingRestrict(keys[1..], keep, held);
      forall x | x in rest ensures x in held && held[keys[0]].policy < held[x].policy {
        assert x in Elems(rest) && x in Elems(keys[1..]);
      }
      forall x | x in Restrict(keys, keep) ensures x in held {
        assert x in Elems(Restrict(keys, keep));
      }
    }
  }

  /** Evicting one domain on both sides. */
  lemma SameDelete(cap: int, r: State, l: LruState, last: int, k: string)
    requires Same(cap, r, l, last) && k in r.entries.vals
    ensures Same(cap, r.(entries := r.entries.Delete(k)), l.(store := l.store.Delete(k)), last)
  {
    assert k in l.store.vals.Keys;
    NumberedDelete(r, k);
    DeleteValid(r.entries, k);
    DeleteValid(l.store, k);
  }

  /** Sorted alike, both evict the same domain. */
  lemma MirrorEvict(cap: int, r: State, l: LruState, last: int)
    requires Mirrors(cap, r, l, last) && r.entries.keys != []
    ensures l.store.keys != []
    ensures Mirrors(cap, r.(entries := Evicted(r.entries)), l.(store := l.store.Delete(l.store.keys[0])), last)
  {
    var m, s := r.entries, l.store;
    SameSizes(cap, r, l, last);
    var k := s.keys[0];
    assert k in Elems(s.keys) && k in m.vals.Keys;
    EvictsFirst(r, s.keys);
    DeleteFirst(s);
    SameDelete(cap, r, l, last, k);
    AscendingRestrict(s.keys, s.vals.Keys - {k}, m.vals);
    DeleteValid(s, k);
    assert k !in Elems(s.Delete(k).keys);
    AscendingWithout(s.Delete(k).keys, m.vals, k);
  }

  lemma EvictsFirst(r: State, keys: seq<string>)
    requires Numbered(r) && keys != [] && Ascending(keys, r.entries.vals) && Elems(keys) == r.entries.vals.Keys
             && r.entries.keys != []
    ensures Evicted(r.entries) == r.entries.Delete(keys[0])
  {
    var k := r.entries.keys[FirstOldest(r.entries, |r.entries.keys|)];
    assert keys[0] in Elems(keys);
    ScanFindsOldest(r, keys[0]);
    assert k in r.entries.vals.Keys && k in Elems(keys);
    var i :| 0 <= i < |keys| && keys[i] == k;
    assert 0 < i ==> Older(r.entries.vals[keys[0]], r.entries.vals[keys[i]]);
  }

  lemma SameAdd(cap: int, r: State, l: LruState, last: int, d: string, now: int)
    requires Same(cap, r, l, last) && last <= now && d !in r.entries.vals && l.store.Size() < cap
    ensures Same(cap, State(r.entries.Put(d, Entry(r.created, now)), r.created + 1),
                 LruState(l.store.Put(d, Some(l.created)), l.created + 1), now)
    ensures l.store.Put(d, Some(l.created)).keys == l.store.keys + [d]
  {
    PutNewValid(r.entries, d, Entry(r.created, now));
    assert d !in l.store.vals.Keys;
    PutNewValid(l.store, d, Some(l.created));
    NumberedAdd(r, d, now);
  }

  lemma NumberedAdd(r: State, d: string, now: int)
    requires Numbered(r) && d !in r.entries.vals
    ensures Numbered(State(r.entries.Put(d, Entry(r.created, now)), r.created + 1))
  {
    PutNewValid(r.entries, d, Entry(r.created, now));
    forall i | 0 <= i < |r.entries.keys| ensures r.entries.keys[i] in r.entries.vals.Keys && r.entries.keys[i] != d {
      assert r.entries.keys[i] in Elems(r.entries.keys);
    }
  }

  /** A new domain is the youngest on both sides, whatever the clock says. */
  lemma MirrorAdd(cap: int, r: State, l: LruState, last: int, d: string, now: int)
    requires Mirrors(cap, r, l, last) && last <= now && d !in r.entries.vals && l.store.Size() < cap
    ensures Mirrors(cap, State(r.entries.Put(d, Entry(r.created, now)), r.created + 1),
                    LruState(l.store.Put(d, Some(l.created)), l.created + 1), now)
  {
    SameAdd(cap, r, l, last, d, now);
    assert d !in l.store.vals.Keys && d !in Elems(l.store.keys);
    forall x | x in l.store.keys ensures Older(r.entries.vals[x], Entry(r.created, now)) {
      assert x in Elems(l.store.keys) && x in r.entries.vals.Keys;
    }
    AscendingAppend(l.store.keys, r.entries.vals, d, Entry(r.created, now));
  }

  lemma MirrorMiss(maxDomains: int, r: State, l: LruState, last: int, d: string, now: int)
    requires Mirrors(Cap(maxDomains), r, l, last) && last <= now && d !in r.entries.vals
    ensures Mirrors(Cap(maxDomains), Step(maxDomains, r, Use(d, now)), LruStep(Cap(maxDomains), l, Use(d, now)), now)
  {
    var cap := Cap(maxDomains);
    var roomR := if maxDomains <= r.entries.Size() then Evicted(r.entries) else r.entries;
    var roomL := LruMaps.MakeRoom(cap, l.store);
    MirrorRoom(maxDomains, r, l, last, d);
    var r1, l1 := r.(entries := roomR), l.(store := roomL);
    assert Step(maxDomains, r, Use(d, now)) == State(r1.entries.Put(d, Entry(r1.created, now)), r1.created + 1) by {
      RegistryMiss(maxDomains, r, d, now);
    }
    assert LruStep(cap, l, Use(d, now)) ==
        LruState(l1.store.Put(d, Some(l1.created)), l1.created + 1) by { LruMiss(cap, l, d, now); }
    MirrorAdd(cap, r1, l1, last, d, now);
  }

  lemma RegistryMiss(maxDomains: int, r: State, d: string, now: int)
    requires r.entries.Valid() && d !in r.entries.vals
    ensures var room := if maxDomains <= r.entries.Size() then Evicted(r.entries) else r.entries;
            Step(maxDomains, r, Use(d, now)) == State(room.Put(d, Entry(r.created, now)), r.created + 1)
  {}

  lemma LruMiss(cap: int, l: LruState, d: string, now: int)
    requires d !in l.store.vals
    ensures LruStep(cap, l, Use(d, now)) ==
            LruState(LruMaps.MakeRoom(cap, l.store).Put(d, Some(l.created)), l.created + 1)
  {}

  /** Both make room alike. */
  lemma MirrorRoom(maxDomains: int, r: State, l: LruState, last: int, d: string)
    requires Mirrors(Cap(maxDomains), r, l, last) && d !in r.entries.vals
    ensures d !in l.store.vals
    ensures var roomR := if maxDomains <= r.entries.Size() then Evicted(r.entries) else r.entries;
            var roomL := LruMaps.MakeRoom(Cap(maxDomains), l.store);
            && Mirrors(Cap(maxDomains), r.(entries := roomR), l.(store := roomL), last)
            && d !in roomR.vals && roomL.Size() < Cap(maxDomains)
  {
    var cap := Cap(maxDomains);
    assert d !in l.store.vals.Keys;
    SameSizes(cap, r, l, last);
    LruMaps.MakeRoomGood(cap, l.store);
    EvictedValid(r.entries);
    if r.entries.keys != [] && maxDomains <= r.entries.Size() { MirrorEvict(cap, r, l, last); }
  }

  // ---------------------------------------------------------------- whole histories

  /** The use is of a domain not held, or free of such a tie. */
  ghost predicate Harmless(r: State, e: Event) {
    e.Use? && e.domain in r.entries.vals ==> TieFree(r, e.domain, e.now)
  }

  lemma {:induction false} MirrorStep(maxDomains: int, r: State, l: LruState, last: int, e: Event)
    requires Mirrors(Cap(maxDomains), r, l, last)
    requires (e.Use? ==> last <= e.now) && Harmless(r, e)
    ensures Mirrors(Cap(maxDomains), Step(maxDomains, r, e), LruStep(Cap(maxDomains), l, e),
                    if e.Use? then e.now else last)
  {
    if e.Use? {
      if e.domain in r.entries.vals {
        MirrorHit(maxDomains, r, l, last, e.domain, e.now);
      } else {
        MirrorMiss(maxDomains, r, l, last, e.domain, e.now);
      }
    }
  }

  /** A use in a later millisecond than all before is harmless. */
  lemma LaterIsHarmless(cap: int, r: State, l: LruState, last: int, e: Event)
    requires Same(cap, r, l, last) && (e.Use? ==> last < e.now)
    ensures Harmless(r, e)
  {}

  /** A registry told to hold fewer than one domain still holds the last one used. */
  function Cap(maxDomains: int): int {
    if maxDomains < 1 then 1 else maxDomains
  }

  ghost predicate AllBy(es: seq<Event>, t: int) {
    forall e <- es :: e.Use? ==> e.now <= t
  }

  /** The clock never goes back. */
  ghost predicate Clocked(es: seq<Event>) {
    forall i, j :: 0 <= i < j < |es| && es[i].Use? && es[j].Use? ==> es[i].now <= es[j].now
  }

  /** No held domain is used again in the millisecond of another held domain's use that was inserted after it. */
  ghost predicate TiesAreHarmless(maxDomains: int, es: seq<Event>) {
    es == [] || (TiesAreHarmless(maxDomains, es[..|es| - 1]) && Harmless(Run(maxDomains, es[..|es| - 1]), es[|es| - 1]))
  }

  lemma {:induction false} MirrorRun(maxDomains: int, es: seq<Event>, last: int)
    requires Clocked(es) && TiesAreHarmless(maxDomains, es) && AllBy(es, last)
    ensures Mirrors(Cap(maxDomains), Run(maxDomains, es), LruRun(Cap(maxDomains), es), last)
  {
    if es != [] {
      var pre, e := es[..|es| - 1], es[|es| - 1];
      var at := if e.Use? then e.now else last;
      forall x | x in pre && x.Use? ensures x.now <= at { assert x in es; }
      MirrorRun(maxDomains, pre, at);
      MirrorStep(maxDomains, Run(maxDomains, pre), LruRun(Cap(maxDomains), pre), at, e);
    }
  }

  /** With a strictly increasing clock there are no ties at all. */
  lemma {:induction false} StrictHasNoTies(maxDomains: int, es: seq<Event>, last: int)
    requires StrictClock(es) && AllBy(es, last)
    ensures TiesAreHarmless(maxDomains, es)
    ensures Mirrors(Cap(maxDomains), Run(maxDomains, es), LruRun(Cap(maxDomains), es), last)
  {
    if es != [] {
      var pre, e := es[..|es| - 1], es[|es| - 1];
      var at := if e.Use? then e.now - 1 else last;
      forall x | x in pre && x.Use? ensures x.now <= at { assert x in es; }
      StrictHasNoTies(maxDomains, pre, at);
      LaterIsHarmless(Cap(maxDomains), Run(maxDomains, pre), LruRun(Cap(maxDomains), pre), at, e);
      MirrorStep(maxDomains, Run(maxDomains, pre), LruRun(Cap(maxDomains), pre), at, e);
    }
  }

  ghost predicate Agree(cap: int, r: State, l: LruState) {
    && r.created == l.created
    && r.entries.vals.Keys == l.store.vals.Keys
    && (forall d <- r.entries.vals.Keys :: l.store.vals[d] == Some(r.entries.vals[d].policy))
    && r.entries.Size() <= cap
  }

  /**
   With a strictly increasing clock, the scanning registry and an LruMap of the same
   capacity hold the same domains with the same breakers, and have created as many.
   */
  lemma RegistryIsLru(maxDomains: int, es: seq<Event>)
    requires StrictClock(es)
    ensures Agree(Cap(maxDomains), Run(maxDomains, es), LruRun(Cap(maxDomains), es))
  {
    var last := Latest(es);
    StrictHasNoTies(maxDomains, es, last);
    SameSizes(Cap(maxDomains), Run(maxDomains, es), LruRun(Cap(maxDomains), es), last);
  }

  /** With a clock that may stand still too, as long as its ties are harmless. */
  lemma RegistryIsLruDespiteTies(maxDomains: int, es: seq<Event>)
    requires Clocked(es) && TiesAreHarmless(maxDomains, es)
    ensures Agree(Cap(maxDomains), Run(maxDomains, es), LruRun(Cap(maxDomains), es))
  {
    var last := Latest(es);
    MirrorRun(maxDomains, es, last);
    SameSizes(Cap(maxDomains), Run(maxDomains, es), LruRun(Cap(maxDomains), es), last);
  }

  ghost function Latest(es: seq<Event>): (t: int)
    ensures AllBy(es, t)
  {
    if es == [] then 0
    else
      var t := Latest(es[..|es| - 1]);
      var e := es[|es| - 1];
      assert es == es[..|es| - 1] + [e];
      if e.Use? && t < e.now then e.now else t
  }

  // ---------------------------------------------------------------- which domains survive

  function Without(s: seq<string>, d: string): seq<string> {
    Restrict(s, Elems(s) - {d})
  }

  /** The distinct domains used since the last clear, least recently used first. */
  function ByRecency(es: seq<Event>): seq<string> {
    if es == [] then []
    else
      match es[|es| - 1]
      case ClearAll => []
      case Use(d, _) => Without(ByRecency(es[..|es| - 1]), d) + [d]
  }

  function LastN(s: seq<string>, n: nat): seq<string> {
    if |s| <= n then s else s[|s| - n..]
  }

  lemma WithoutAppend(a: seq<string>, b: seq<string>, d: string)
    ensures Without(a + b, d) == Without(a, d) + Without(b, d)
  {
    var keep := Elems(a + b) - {d};
    forall x | x in a ensures x in Elems(a + b) { assert x in a + b; }
    forall x | x in b ensures x in Elems(a + b) { assert x in a + b; }
    RestrictAppend(a, b, keep);
    RestrictIsWithout(a, keep, d);
    RestrictIsWithout(b, keep, d);
  }

  lemma WithoutAbsent(s: seq<string>, d: string)
    requires d !in s
    ensures Without(s, d) == s
  {
    RestrictAll(s, Elems(s) - {d});
  }

  lemma WithoutOnce(s: seq<string>, d: string)
    requires Distinct(s) && d in s
    ensures |Without(s, d)| == |s| - 1
  {
    RestrictDistinct(s, Elems(s) - {d});
    DistinctSize(s);
    DistinctSize(Without(s, d));
    assert Elems(Without(s, d)) == Elems(s) - {d};
  }

  lemma RestrictIsWithout(s: seq<string>, keep: set<string>, d: string)
    requires forall x <- s :: x in keep <==> x != d
    ensures Restrict(s, keep) == Without(s, d)
  {
    RestrictCong(s, keep, Elems(s) - {d});
  }

  lemma WithoutDistinct(s: seq<string>, d: string)
    requires Distinct(s)
    ensures Distinct(Without(s, d)) && d !in Without(s, d)
  {
    RestrictDistinct(s, Elems(s) - {d});
    assert d !in Elems(Without(s, d));
  }

  lemma {:induction false} RecencyDistinct(es: seq<Event>)
    ensures Distinct(ByRecency(es))
  {
    if es != [] {
      RecencyDistinct(es[..|es| - 1]);
      if es[|es| - 1].Use? { WithoutDistinct(ByRecency(es[..|es| - 1]), es[|es| - 1].domain); }
    }
  }

  lemma LastOfAppend(a: seq<string>, b: seq<string>, n: nat)
    requires |b| == n || (a == [] && |b| <= n)
    ensures LastN(a + b, n) == b
  {}

  lemma RecentHit(cap: nat, front: seq<string>, keys: seq<string>, d: string)
    requires Distinct(front + keys) && d in keys && (|keys| == cap || (front == [] && |keys| <= cap))
    ensures LastN(Without(front + keys, d) + [d], cap) == Without(keys, d) + [d]
  {
    var i :| 0 <= i < |keys| && keys[i] == d;
    assert (front + keys)[|front| + i] == d;
    forall j | 0 <= j < |front| ensures front[j] != d { assert (front + keys)[j] != (front + keys)[|front| + i]; }
    WithoutAppend(front, keys, d);
    WithoutAbsent(front, d);
    assert Distinct(keys) by {
      forall a, b | 0 <= a < b < |keys| ensures keys[a] != keys[b] {
        assert (front + keys)[|front| + a] != (front + keys)[|front| + b];
      }
    }
    WithoutOnce(keys, d);
    assert front + Without(keys, d) + [d] == front + (Without(keys, d) + [d]);
    LastOfAppend(front, Without(keys, d) + [d], cap);
  }

  lemma RecentMiss(cap: nat, front: seq<string>, keys: seq<string>, d: string)
    requires 1 <= cap && d !in keys && (|keys| == cap || (front == [] && |keys| < cap))
    ensures LastN(Without(front + keys, d) + [d], cap) == (if |keys| == cap then keys[1..] else keys) + [d]
  {
    WithoutAppend(front, keys, d);
    WithoutAbsent(keys, d);
    var f := Without(front, d);
    if |keys| == cap {
      assert f + keys + [d] == (f + keys[..1]) + (keys[1..] + [d]);
      LastOfAppend(f + keys[..1], keys[1..] + [d], cap);
    } else {
      assert f + keys + [d] == f + (keys + [d]);
      LastOfAppend(f, keys + [d], cap);
    }
  }

  /** Bounded recency evolves from bounded recency alone. */
  lemma RecentStep(cap: nat, recent: seq<string>, keys: seq<string>, d: string)
    requires 1 <= cap && Distinct(recent) && keys == LastN(recent, cap)
    ensures LastN(Without(recent, d) + [d], cap) ==
            if d in keys then Without(keys, d) + [d]
            else (if |keys| == cap then keys[1..] else keys) + [d]
  {
    var front := recent[..|recent| - |keys|];
    assert recent == front + keys;
    if d in keys {
      RecentHit(cap, front, keys, d);
    } else {
      RecentMiss(cap, front, keys, d);
    }
  }

  lemma LruHitKeys(cap: int, s: LruMaps.Store<string, Policy>, d: string)
    requires LruMaps.Good(cap, s) && (forall x <- s.vals.Keys :: s.vals[x].Some?) && d in s.vals
    ensures var t := LruMaps.Step(cap, s, LruMaps.Get(d));
            && LruMaps.Good(cap, t)
            && (forall x <- t.vals.Keys :: t.vals[x].Some?)
            && t.keys == Without(s.keys, d) + [d]
  {
    LruMaps.StepGood(cap, s, LruMaps.Get(d));
    DeleteValid(s, d);
    LruMaps.RefreshGood(s, d, s.vals[d]);
    assert d in s.vals.Keys && s.vals[d].Some?;
    forall x | x in s.keys ensures x in s.vals.Keys - {d} <==> x != d { assert x in Elems(s.keys); }
    RestrictIsWithout(s.keys, s.vals.Keys - {d}, d);
  }

  lemma LruMissKeys(cap: int, s: LruMaps.Store<string, Policy>, d: string, p: Policy)
    requires LruMaps.Good(cap, s) && (forall x <- s.vals.Keys :: s.vals[x].Some?) && d !in s.vals
    ensures var t := LruMaps.Step(cap, s, LruMaps.Set(d, Some(p)));
            && LruMaps.Good(cap, t)
            && (forall x <- t.vals.Keys :: t.vals[x].Some?)
            && t.keys == (if |s.keys| == cap then s.keys[1..] else s.keys) + [d]
  {
    LruMaps.StepGood(cap, s, LruMaps.Set(d, Some(p)));
    DeleteValid(s, d);
    LruMaps.MakeRoomGood(cap, s);
    if cap <= s.Size() { DeleteFirst(s); DeleteValid(s, s.keys[0]); }
    PutNewValid(LruMaps.MakeRoom(cap, s), d, Some(p));
  }

  lemma {:induction false} LruKeepsRecent(cap: int, es: seq<Event>)
    requires 1 <= cap
    ensures LruMaps.Good(cap, LruRun(cap, es).store)
    ensures LruRun(cap, es).store.keys == LastN(ByRecency(es), cap)
    ensures forall d <- LruRun(cap, es).store.vals.Keys :: LruRun(cap, es).store.vals[d].Some?
  {
    if es != [] {
      var pre, e := es[..|es| - 1], es[|es| - 1];
      LruKeepsRecent(cap, pre);
      RecencyDistinct(pre);
      if e.Use? {
        var l := LruRun(cap, pre);
        RecentStep(cap, ByRecency(pre), l.store.keys, e.domain);
        var d := e.domain;
        assert d in l.store.vals.Keys <==> d in Elems(l.store.keys);
        if d in l.store.vals { LruHitKeys(cap, l.store, d); } else { LruMissKeys(cap, l.store, d, l.created); }
      }
    }
  }

  /** The registry holds exactly the `maxDomains` most recently used domains (at least one). */
  lemma RegistryKeepsRecent(maxDomains: int, es: seq<Event>)
    requires StrictClock(es)
    ensures Run(maxDomains, es).entries.vals.Keys == Elems(LastN(ByRecency(es), Cap(maxDomains)))
  {
    RegistryIsLru(maxDomains, es);
    LruKeepsRecent(Cap(maxDomains), es);
  }

  lemma RunSnoc(maxDomains: int, es: seq<Event>, e: Event)
    ensures Run(maxDomains, es + [e]) == Step(maxDomains, Run(maxDomains, es), e)
    ensures ByRecency(es + [e]) == if e.Use? then Without(ByRecency(es), e.domain) + [e.domain] else []
  {
    assert (es + [e])[..|es|] == es;
  }

  lemma TiedOne(a: string, t: int)
    ensures Run(2, [Use(a, t)]) == State(OrderedMap([a], map[a := Entry(0, t)]), 1)
    ensures ByRecency([Use(a, t)]) == [a]
  {
    assert [] + [Use(a, t)] == [Use(a, t)];
    RunSnoc(2, [], Use(a, t));
  }

  function TwoTied(a: string, b: string, t: int): Entries {
    OrderedMap([a, b], map[a := Entry(0, t), b := Entry(1, t)])
  }

  lemma TiedTwo(a: string, b: string, t: int)
    requires a != b
    ensures Run(2, [Use(a, t)] + [Use(b, t)]) == State(TwoTied(a, b, t), 2)
    ensures ByRecency([Use(a, t)] + [Use(b, t)]) == [a] + [b]
  {
    TiedOne(a, t);
    RunSnoc(2, [Use(a, t)], Use(b, t));
    WithoutAbsent([a], b);
  }

  lemma TiedThree(a: string, b: string, t: int)
    requires a != b
    ensures Run(2, [Use(a, t)] + [Use(b, t)] + [Use(a, t)]) == State(TwoTied(a, b, t), 2)
    ensures ByRecency([Use(a, t)] + [Use(b, t)] + [Use(a, t)]) == [b] + [a]
  {
    TiedTwo(a, b, t);
    RunSnoc(2, [Use(a, t)] + [Use(b, t)], Use(a, t));
    WithoutAppend([a], [b], a);
    WithoutAbsent([b], a);
  }

  /** On a tie the scan keeps the first of the equals. */
  lemma TiedEviction(m: Entries)
    requires m.Valid() && |m.keys| == 2 && m.vals[m.keys[0]].lastUsed == m.vals[m.keys[1]].lastUsed
    ensures Evicted(m).vals == m.vals - {m.keys[0]} && Evicted(m).Size() == 1
  {
    assert m.keys[1] in Elems(m.keys);
    DeleteValid(m, m.keys[0]);
    EvictedValid(m);
  }

  /** Two domains used, the first one again, then a third, all in the same millisecond. */
  function Burst(a: string, b: string, c: string, t: int): seq<Event> {
    [Use(a, t)] + [Use(b, t)] + [Use(a, t)] + [Use(c, t)]
  }

  lemma BurstOnRegistry(a: string, b: string, c: string, t: int)
    requires a != b && a != c && b != c
    ensures Run(2, Burst(a, b, c, t)).entries.vals.Keys == {b, c}
  {
    TiedThree(a, b, t);
    RunSnoc(2, [Use(a, t)] + [Use(b, t)] + [Use(a, t)], Use(c, t));
    TiedEviction(TwoTied(a, b, t));
  }

  lemma BurstOnLru(a: string, b: string, c: string, t: int)
    requires a != b && a != c && b != c
    ensures LruRun(2, Burst(a, b, c, t)).store.vals.Keys == {a, c}
  {
    assert ByRecency(Burst(a, b, c, t)) == [b] + [a] + [c] by {
      TiedThree(a, b, t);
      RunSnoc(2, [Use(a, t)] + [Use(b, t)] + [Use(a, t)], Use(c, t));
      WithoutAbsent([b] + [a], c);
    }
    assert LruRun(2, Burst(a, b, c, t)).store.vals.Keys == Elems(LastN([b] + [a] + [c], 2)) by {
      LruKeepsRecent(2, Burst(a, b, c, t));
    }
    LastOfAppend([b], [a] + [c], 2);
    assert [b] + [a] + [c] == [b] + ([a] + [c]);
  }

  /** The strict clock is needed: within one millisecond, insertion order decides instead of recency. */
  lemma TiedClockDiffers(a: string, b: string, c: string, t: int)
    requires a != b && a != c && b != c
    ensures Run(2, Burst(a, b, c, t)).entries.vals.Keys == {b, c}
    ensures LruRun(2, Burst(a, b, c, t)).store.vals.Keys == {a, c}
  {
    BurstOnRegistry(a, b, c, t);
    BurstOnLru(a, b, c, t);
  }

  // ---------------------------------------------------------------- the class

  /** `domain` with time `time` is what the scan holds after `n` entries. */
  ghost predicate IsOldestSoFar(m: Entries, n: nat, domain: string, time: int)
    requires m.Valid() && n <= |m.keys|
  {
    && 0 < n && domain == m.keys[FirstOldest(m, n)] && domain in m.vals && time == m.vals[domain].lastUsed
  }

  lemma ScanOne(m: Entries, i: nat)
    requires m.Valid() && i < |m.keys|
    ensures m.keys[i] in m.vals
    ensures FirstOldest(m, i + 1) ==
            if 0 < i && m.vals[m.keys[FirstOldest(m, i)]].lastUsed <= m.vals[m.keys[i]].lastUsed then FirstOldest(m, i)
                else i
  {
    assert m.keys[i] in Elems(m.keys);
  }

  class CircuitBreakerRegistry {
    var entries: Entries
    var created: nat
    const maxDomains: int

    ghost predicate Valid()
      reads this
    {
      entries.Valid()
    }

    ghost function Contents(): State
      reads this
    {
      State(entries, created)
    }

    constructor (maxDomains: int)
      ensures Valid() && Contents() == State(Empty(), 0) && this.maxDomains == maxDomains
    {
      this.maxDomains := maxDomains;
      entries, created := Empty(), 0;
    }

    method EvictLru()
      requires Valid()
      modifies this`entries
      ensures Valid() && entries == Evicted(old(entries))
    {
      EvictedValid(entries);
      var oldest: Option<string>, oldestTime := None, 0;
      var scanned := entries;
      for i := 0 to |scanned.keys|
        invariant entries == scanned
        invariant oldest.None? <==> i == 0
        invariant oldest.Some? ==> IsOldestSoFar(scanned, i, oldest.value, oldestTime)
      {
        var domain := scanned.keys[i];
        ScanOne(scanned, i);
        var lastUsed := scanned.vals[domain].lastUsed;
        if oldest.None? || lastUsed < oldestTime {
          oldest, oldestTime := Some(domain), lastUsed;
        }
      }
      if oldest.Some? {
        entries := scanned.Delete(oldest.value);
      }
    }

    /** The breaker for `domain` at time `now`. */
    method Get(domain: string, now: int) returns (policy: Policy)
      requires Valid()
      modifies this
      ensures Valid() && Contents() == Step(maxDomains, old(Contents()), Use(domain, now))
      ensures domain in entries.vals && policy == entries.vals[domain].policy
      ensures domain in old(entries).vals ==> policy == old(entries).vals[domain].policy
    {
      StepValid(maxDomains, Contents(), Use(domain, now));
      if domain in entries.vals {
        policy := entries.vals[domain].policy;
        entries := entries.Put(domain, entries.vals[domain].(lastUsed := now));
        return;
      }
      if maxDomains <= entries.Size() {
        EvictLru();
      }
      policy, created := created, created + 1;
      entries := entries.Put(domain, Entry(policy, now));
    }

    method Clear()
      modifies this
      ensures Valid() && Contents() == State(Empty(), old(created))
    {
      entries := Empty();
    }
  }
}
