/** When the scanning registry and the LruMap agree from a given state on, and when they do not. */
module BreakerTies {
  import opened Wrappers
  import opened OrderedMaps
  import opened CircuitBreakerRegistries
  import LruMaps

  /** Uses in ever later milliseconds, the first after `last`. */
  predicate StrictFrom(es: seq<Event>, last: int)
    decreases |es|
  {
    es == [] || (es[0].Use? && last < es[0].now && StrictFrom(es[1..], es[0].now))
  }

  ghost function RunFrom(maxDomains: int, r: State, es: seq<Event>): State
    requires r.entries.Valid()
    decreases |es|
  {
    if es == [] then r
    else
      StepValid(maxDomains, r, es[0]);
      RunFrom(maxDomains, Step(maxDomains, r, es[0]), es[1..])
  }

  function LruRunFrom(cap: int, l: LruState, es: seq<Event>): LruState
    decreases |es|
  {
    if es == [] then l else LruRunFrom(cap, LruStep(cap, l, es[0]), es[1..])
  }

  ghost predicate AgreeAfter(maxDomains: int, r: State, l: LruState, es: seq<Event>)
    requires r.entries.Valid()
  {
    RunFrom(maxDomains, r, es).entries.vals.Keys == LruRunFrom(Cap(maxDomains), l, es).store.vals.Keys
  }

  /** They hold the same domains after all later uses under a strict clock. */
  ghost predicate AgreeForEver(maxDomains: int, r: State, l: LruState, last: int)
    requires r.entries.Valid()
  {
    forall es :: StrictFrom(es, last) ==> AgreeAfter(maxDomains, r, l, es)
  }

  lemma {:induction false} SortedAgree(maxDomains: int, r: State, l: LruState, last: int, es: seq<Event>)
    requires Mirrors(Cap(maxDomains), r, l, last) && StrictFrom(es, last)
    ensures AgreeAfter(maxDomains, r, l, es)
    decreases |es|
  {
    if es != [] {
      LaterIsHarmless(Cap(maxDomains), r, l, last, es[0]);
      MirrorStep(maxDomains, r, l, last, es[0]);
      SortedAgree(maxDomains, Step(maxDomains, r, es[0]), LruStep(Cap(maxDomains), l, es[0]), es[0].now, es[1..]);
    }
  }

  // ---------------------------------------------------------------- an unsorted state can be told apart

  /** A string of `n` x's. */
  function Letters(n: nat): string {
    if n == 0 then "" else "x" + Letters(n - 1)
  }

  lemma {:induction false} LettersLength(n: nat)
    ensures |Letters(n)| == n
  {
    if n > 0 { LettersLength(n - 1); }
  }

  function Longest(keys: seq<string>): nat {
    if keys == [] then 0
    else
      var n := Longest(keys[1..]);
      if n < |keys[0]| then |keys[0]| else n
  }

  lemma {:induction false} LongestIs(keys: seq<string>, k: string)
    requires k in keys
    ensures |k| <= Longest(keys)
  {
    if k != keys[0] { LongestIs(keys[1..], k); }
  }

  /** A domain that is not held. */
  function NewDomain(keys: seq<string>): string {
    Letters(Longest(keys) + 1)
  }

  lemma NewDomainIsNew(keys: seq<string>)
    ensures NewDomain(keys) !in keys
  {
    LettersLength(Longest(keys) + 1);
    if NewDomain(keys) in keys { LongestIs(keys, NewDomain(keys)); }
  }

  /** The LruMap holds `x` before `y`, with `a` before both, and the scan takes `y` before `x`. */
  ghost predicate Reversed(cap: int, r: State, l: LruState, last: int, a: seq<string>, x: string, b: seq<string>,
      y: string) {
    && Same(cap, r, l, last) && l.store.keys == a + [x] + b && y in b
    && x in r.entries.vals && y in r.entries.vals && Older(r.entries.vals[y], r.entries.vals[x])
  }

  lemma ReversedApart(a: seq<string>, x: string, b: seq<string>, y: string)
    requires Distinct(a + [x] + b) && y in b
    ensures x != y && x !in a && y !in a
  {
    var s := a + [x] + b;
    var j :| 0 <= j < |b| && b[j] == y;
    assert s[|a|] == x && s[|a| + 1 + j] == y;
    forall i | 0 <= i < |a| ensures a[i] != x && a[i] != y { assert s[i] == a[i]; }
  }

  lemma FirstToEnd(keys: seq<string>, a: seq<string>, x: string, b: seq<string>)
    requires Distinct(keys) && keys == a + [x] + b && a != []
    ensures Restrict(keys, Elems(keys) - {a[0]}) + [a[0]] == a[1..] + [x] + (b + [a[0]])
  {
    RestrictButFirst(keys);
    assert keys[0] == a[0] && keys[1..] == a[1..] + [x] + b;
  }

  /** Using the LruMap's oldest key, if it is neither, brings `x` one place nearer to eviction. */
  lemma UseOldest(maxDomains: int, r: State, l: LruState, last: int, a: seq<string>, x: string, b: seq<string>,
      y: string, now: int)
    requires Reversed(Cap(maxDomains), r, l, last, a, x, b, y) && a != [] && last < now
    ensures Reversed(Cap(maxDomains), Step(maxDomains, r, Use(a[0], now)), LruStep(Cap(maxDomains), l, Use(a[0], now)),
            now,
                     a[1..], x, b + [a[0]], y)
    ensures LruStep(Cap(maxDomains), l, Use(a[0], now)).store.Size() == l.store.Size()
  {
    var z := a[0];
    ReversedApart(a, x, b, y);
    assert z in r.entries.vals by {
      assert l.store.keys[0] == z && z in Elems(l.store.keys) && z in r.entries.vals.Keys;
    }
    FirstToEnd(l.store.keys, a, x, b);
    SameHit(maxDomains, r, l, last, z, now);
  }

  /** With room left, a new domain brings the map nearer to being full. */
  lemma UseNew(maxDomains: int, r: State, l: LruState, last: int, a: seq<string>, x: string, b: seq<string>, y: string,
      d: string, now: int)
    requires Reversed(Cap(maxDomains), r, l, last, a, x, b, y) && last < now
    requires d !in l.store.keys && l.store.Size() < Cap(maxDomains)
    ensures Reversed(Cap(maxDomains), Step(maxDomains, r, Use(d, now)), LruStep(Cap(maxDomains), l, Use(d, now)), now,
                     a, x, b + [d], y)
    ensures LruStep(Cap(maxDomains), l, Use(d, now)).store.Size() == l.store.Size() + 1
  {
    MissWithRoom(maxDomains, r, l, last, d, now);
    ReversedAdd(Cap(maxDomains), r, l, last, a, x, b, y, d, now);
  }

  lemma ReversedAdd(cap: int, r: State, l: LruState, last: int, a: seq<string>, x: string, b: seq<string>, y: string,
      d: string, now: int)
    requires Reversed(cap, r, l, last, a, x, b, y) && last < now && d !in r.entries.vals && l.store.Size() < cap
    ensures Reversed(cap, State(r.entries.Put(d, Entry(r.created, now)), r.created + 1),
                     LruState(l.store.Put(d, Some(l.created)), l.created + 1), now, a, x, b + [d], y)
    ensures l.store.Put(d, Some(l.created)).Size() == l.store.Size() + 1
  {
    var r', l' := State(r.entries.Put(d, Entry(r.created, now)), r.created + 1),
        LruState(l.store.Put(d, Some(l.created)), l.created + 1);
    SameAdd(cap, r, l, last, d, now);
    assert l'.store.keys == l.store.keys + [d];
    KeysKept(l.store.keys, a, x, b, y, d);
    OlderKept(r.entries, d, Entry(r.created, now), x, y);
  }

  lemma KeysKept(keys: seq<string>, a: seq<string>, x: string, b: seq<string>, y: string, d: string)
    requires keys == a + [x] + b && y in b
    ensures keys + [d] == a + [x] + (b + [d]) && y in b + [d]
  {}

  lemma OlderKept(m: Entries, d: string, e: Entry, x: string, y: string)
    requires d !in m.vals && x in m.vals && y in m.vals && Older(m.vals[y], m.vals[x])
    ensures x in m.Put(d, e).vals && y in m.Put(d, e).vals && Older(m.Put(d, e).vals[y], m.Put(d, e).vals[x])
  {}

  lemma MissWithRoom(maxDomains: int, r: State, l: LruState, last: int, d: string, now: int)
    requires Same(Cap(maxDomains), r, l, last) && d !in l.store.keys && l.store.Size() < Cap(maxDomains)
    ensures d !in r.entries.vals
    ensures Step(maxDomains, r, Use(d, now)) == State(r.entries.Put(d, Entry(r.created, now)), r.created + 1)
    ensures LruStep(Cap(maxDomains), l, Use(d, now)) == LruState(l.store.Put(d, Some(l.created)), l.created + 1)
  {
    assert d !in Elems(l.store.keys) && d !in l.store.vals.Keys && d !in r.entries.vals.Keys;
    SameSizes(Cap(maxDomains), r, l, last);
    RegistryMiss(maxDomains, r, d, now);
    LruMiss(Cap(maxDomains), l, d, now);
  }

  /** In a full map whose oldest key is `x`, a new domain evicts `x` from the LruMap but not from the registry. */
  lemma UseOneMore(maxDomains: int, r: State, l: LruState, last: int, x: string, b: seq<string>, y: string, d: string,
      now: int)
    requires Reversed(Cap(maxDomains), r, l, last, [], x, b, y) && last < now
    requires d !in l.store.keys && l.store.Size() == Cap(maxDomains)
    ensures x in Step(maxDomains, r, Use(d, now)).entries.vals
            && x !in LruStep(Cap(maxDomains), l, Use(d, now)).store.vals
  {
    assert d !in Elems(l.store.keys) && d !in l.store.vals.Keys && d !in r.entries.vals.Keys;
    SameSizes(Cap(maxDomains), r, l, last);
    ReversedApart([], x, b, y);
    RegistryMiss(maxDomains, r, d, now);
    LruMiss(Cap(maxDomains), l, d, now);
    assert l.store.keys[0] == x && x in Elems(l.store.keys);
    DeleteValid(l.store, x);
    RegistryKeeps(r, x, y);
  }

  /** The scan does not take what is younger than something else that is held. */
  lemma RegistryKeeps(r: State, x: string, y: string)
    requires Numbered(r) && x in r.entries.vals && y in r.entries.vals && Older(r.entries.vals[y], r.entries.vals[x])
    ensures x in Evicted(r.entries).vals
  {
    ScanFindsOldest(r, y);
    var k := r.entries.keys[FirstOldest(r.entries, |r.entries.keys|)];
    assert k != x;
    DeleteValid(r.entries, k);
  }

  lemma OneMoreUse(maxDomains: int, r: State, l: LruState, last: int, e: Event, rest: seq<Event>)
    requires r.entries.Valid() && Step(maxDomains, r, e).entries.Valid() && e.Use? && last < e.now
             && StrictFrom(rest, e.now)
    ensures StrictFrom([e] + rest, last)
    ensures AgreeAfter(maxDomains, r, l, [e] + rest) <==>
            AgreeAfter(maxDomains, Step(maxDomains, r, e), LruStep(Cap(maxDomains), l, e), rest)
  {
    assert ([e] + rest)[1..] == rest;
  }

  lemma {:induction false} ReversedDiffers(maxDomains: int, r: State, l: LruState, last: int, a: seq<string>,
      x: string, b: seq<string>, y: string)
    returns (es: seq<Event>)
    requires Reversed(Cap(maxDomains), r, l, last, a, x, b, y)
    ensures StrictFrom(es, last) && !AgreeAfter(maxDomains, r, l, es)
    decreases Cap(maxDomains) - l.store.Size(), |a|
  {
    var cap, now := Cap(maxDomains), last + 1;
    var e := Use(if a == [] then NewDomain(l.store.keys) else a[0], now);
    var r', l' := Step(maxDomains, r, e), LruStep(cap, l, e);
    StepValid(maxDomains, r, e);
    NewDomainIsNew(l.store.keys);
    var rest: seq<Event> := [];
    if a != [] {
      UseOldest(maxDomains, r, l, last, a, x, b, y, now);
      rest := ReversedDiffers(maxDomains, r', l', now, a[1..], x, b + [a[0]], y);
    } else if l.store.Size() < cap {
      UseNew(maxDomains, r, l, last, a, x, b, y, e.domain, now);
      rest := ReversedDiffers(maxDomains, r', l', now, a, x, b + [e.domain], y);
    } else {
      UseOneMore(maxDomains, r, l, last, x, b, y, e.domain, now);
      assert x in r'.entries.vals.Keys && x !in l'.store.vals.Keys;
    }
    OneMoreUse(maxDomains, r, l, last, e, rest);
    es := [e] + rest;
  }

  /** Where the order of the LruMap is not the scan's, two keys are reversed. */
  lemma UnsortedIsReversed(cap: int, r: State, l: LruState, last: int)
    returns (a: seq<string>, x: string, b: seq<string>, y: string)
    requires Same(cap, r, l, last) && !Ascending(l.store.keys, r.entries.vals)
    ensures Reversed(cap, r, l, last, a, x, b, y)
  {
    var keys, held := l.store.keys, r.entries.vals;
    forall k | k in keys ensures k in held { assert k in Elems(keys) && k in held.Keys; }
    var i, j :| 0 <= i < j < |keys| && !Older(held[keys[i]], held[keys[j]]);
    a, x, b, y := keys[..i], keys[i], keys[i + 1..], keys[j];
    CutAtKey(keys, i, j);
    DifferentNumbers(r, x, y);
  }

  lemma CutAtKey(keys: seq<string>, i: nat, j: nat)
    requires i < j < |keys|
    ensures keys == keys[..i] + [keys[i]] + keys[i + 1..] && keys[j] in keys[i + 1..]
  {
    assert keys[i + 1..][j - i - 1] == keys[j];
  }

  lemma DifferentNumbers(r: State, x: string, y: string)
    requires Numbered(r) && x in r.entries.vals && y in r.entries.vals && x != y
    ensures r.entries.vals[x].policy != r.entries.vals[y].policy
  {
    var m := r.entries;
    assert x in m.vals.Keys && y in m.vals.Keys && x in Elems(m.keys) && y in Elems(m.keys);
    var i :| 0 <= i < |m.keys| && m.keys[i] == x;
    var j :| 0 <= j < |m.keys| && m.keys[j] == y;
    assert i < j || j < i;
  }

  /**
   From a state in which they hold the same, the registry and the LruMap agree on every later history under a strict
   clock if and only if the LruMap's order is the order by last use and, within a millisecond, by insertion.
   */
  lemma AgreeForEverIff(maxDomains: int, r: State, l: LruState, last: int)
    requires Same(Cap(maxDomains), r, l, last)
    ensures AgreeForEver(maxDomains, r, l, last) <==> Ascending(l.store.keys, r.entries.vals)
  {
    if Ascending(l.store.keys, r.entries.vals) {
      forall es | StrictFrom(es, last) ensures AgreeAfter(maxDomains, r, l, es) {
        SortedAgree(maxDomains, r, l, last, es);
      }
    } else {
      var a, x, b, y := UnsortedIsReversed(Cap(maxDomains), r, l, last);
      var es := ReversedDiffers(maxDomains, r, l, last, a, x, b, y);
      assert !AgreeAfter(maxDomains, r, l, es);
    }
  }

  /**
   So a use of a held domain keeps the agreement for ever if and only if no other held domain that was inserted later
   was used in the same millisecond.
   */
  lemma TieIsHarmlessIff(maxDomains: int, r: State, l: LruState, last: int, d: string, now: int)
    requires Mirrors(Cap(maxDomains), r, l, last) && last <= now && d in r.entries.vals
    ensures var r', l' := Step(maxDomains, r, Use(d, now)), LruStep(Cap(maxDomains), l, Use(d, now));
            && r'.entries.Valid()
            && (AgreeForEver(maxDomains, r', l', now) <==>
                forall z <- r.entries.vals.Keys :: z != d && r.entries.vals[z].lastUsed == now ==>
                    r.entries.vals[z].policy < r.entries.vals[d].policy)
  {
    MirrorHit(maxDomains, r, l, last, d, now);
    AgreeForEverIff(maxDomains, Step(maxDomains, r, Use(d, now)), LruStep(Cap(maxDomains), l, Use(d, now)), now);
    TieFreeMeans(r, d, last, now);
  }

  lemma TieFreeMeans(r: State, d: string, last: int, now: int)
    requires d in r.entries.vals && last <= now && forall z <- r.entries.vals.Keys :: r.entries.vals[z].lastUsed <= last
    ensures TieFree(r, d, now) <==>
            forall z <- r.entries.vals.Keys :: z != d && r.entries.vals[z].lastUsed == now ==>
                r.entries.vals[z].policy < r.entries.vals[d].policy
  {}

  /**
   On histories whose ties were harmless so far: one more use keeps the agreement for ever if and only if it is
   harmless too.
   */
  lemma HistoryAgreesIff(maxDomains: int, pre: seq<Event>, d: string, now: int)
    requires Clocked(pre + [Use(d, now)]) && TiesAreHarmless(maxDomains, pre)
    ensures var es := pre + [Use(d, now)];
            AgreeForEver(maxDomains, Run(maxDomains, es), LruRun(Cap(maxDomains), es), now) <==>
                TiesAreHarmless(maxDomains, es)
  {
    var es, r, l := pre + [Use(d, now)], Run(maxDomains, pre), LruRun(Cap(maxDomains), pre);
    assert es[..|pre|] == pre;
    forall i, j | 0 <= i < j < |pre| && pre[i].Use? && pre[j].Use?
      ensures pre[i].now <= pre[j].now { assert es[i] == pre[i] && es[j] == pre[j]; }
    forall e | e in pre && e.Use? ensures e.now <= now {
      var i :| 0 <= i < |pre| && pre[i] == e;
      assert es[i] == e && es[|pre|] == Use(d, now);
    }
    MirrorRun(maxDomains, pre, now);
    if d in r.entries.vals {
      MirrorHit(maxDomains, r, l, now, d, now);
    } else {
      MirrorMiss(maxDomains, r, l, now, d, now);
    }
    AgreeForEverIff(maxDomains, Step(maxDomains, r, Use(d, now)), LruStep(Cap(maxDomains), l, Use(d, now)), now);
  }
}
