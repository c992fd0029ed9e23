/** A stable sort by a total preorder, and what pins its result down. */
module StableSorts {

  ghost predicate TotalPreorder<T(!new)>(leq: (T, T) -> bool) {
    && (forall a, b :: leq(a, b) || leq(b, a))
    && (forall a, b, c :: leq(a, b) && leq(b, c) ==> leq(a, c))
  }

  predicate Sorted<T>(s: seq<T>, leq: (T, T) -> bool) {
    forall i, j :: 0 <= i < j < |s| ==> leq(s[i], s[j])
  }

  /** Behind everything that does not have to come after it. */
  function Insert<T>(s: seq<T>, x: T, leq: (T, T) -> bool): seq<T> {
    if s == [] then [x]
    else if leq(s[|s| - 1], x) then s + [x]
    else Insert(s[..|s| - 1], x, leq) + [s[|s| - 1]]
  }

  function StableSort<T>(s: seq<T>, leq: (T, T) -> bool): seq<T> {
    if s == [] then [] else Insert(StableSort(s[..|s| - 1], leq), s[|s| - 1], leq)
  }

  /** The elements equivalent to `x`, in order. */
  function Select<T>(s: seq<T>, x: T, leq: (T, T) -> bool): seq<T> {
    if s == [] then []
    else Select(s[..|s| - 1], x, leq) + (if Same(s[|s| - 1], x, leq) then [s[|s| - 1]] else [])
  }

  ghost predicate SameClasses<T(!new)>(a: seq<T>, b: seq<T>, leq: (T, T) -> bool) {
    forall x :: Select(a, x, leq) == Select(b, x, leq)
  }

  predicate Same<T>(a: T, b: T, leq: (T, T) -> bool) {
    leq(a, b) && leq(b, a)
  }

  lemma {:induction false} InsertMembers<T>(s: seq<T>, x: T, leq: (T, T) -> bool, y: T)
    ensures y in Insert(s, x, leq) <==> y in s || y == x
  {
    if s != [] && !leq(s[|s| - 1], x) {
      InsertMembers(s[..|s| - 1], x, leq, y);
      assert s == s[..|s| - 1] + [s[|s| - 1]];
    }
  }

  lemma {:induction false} InsertSorted<T(!new)>(s: seq<T>, x: T, leq: (T, T) -> bool)
    requires TotalPreorder(leq) && Sorted(s, leq)
    ensures Sorted(Insert(s, x, leq), leq)
  {
    if s != [] {
      var n := |s| - 1;
      if leq(s[n], x) {
        forall y | y in s ensures leq(y, x) {
          var i :| 0 <= i < |s| && s[i] == y;
          assert i == n || leq(s[i], s[n]);
        }
      } else {
        InsertSorted(s[..n], x, leq);
        forall y | y in Insert(s[..n], x, leq) ensures leq(y, s[n]) {
          InsertMembers(s[..n], x, leq, y);
        }
      }
    }
  }

  lemma SelectSnoc<T>(s: seq<T>, y: T, x: T, leq: (T, T) -> bool)
    ensures Select(s + [y], x, leq) == Select(s, x, leq) + (if Same(y, x, leq) then [y] else [])
  {
    assert (s + [y])[..|s|] == s;
  }

  function Marked<T>(x: T, y: T, leq: (T, T) -> bool): seq<T> {
    if Same(x, y, leq) then [x] else []
  }

  lemma {:induction false} InsertStable<T(!new)>(s: seq<T>, x: T, y: T, leq: (T, T) -> bool)
    requires TotalPreorder(leq)
    ensures Select(Insert(s, x, leq), y, leq) == Select(s, y, leq) + Marked(x, y, leq)
  {
    if s == [] {
      assert [x][..0] == [];
    } else if leq(s[|s| - 1], x) {
      SelectSnoc(s, x, y, leq);
    } else {
      var front, z := s[..|s| - 1], s[|s| - 1];
      InsertStable(front, x, y, leq);
      SelectSnoc(Insert(front, x, leq), z, y, leq);
    }
  }

  /** The result is sorted, and equivalent elements keep their order. */
  lemma {:induction false} SortIsStable<T(!new)>(s: seq<T>, leq: (T, T) -> bool)
    requires TotalPreorder(leq)
    ensures Sorted(StableSort(s, leq), leq)
    ensures SameClasses(StableSort(s, leq), s, leq)
  {
    if s != [] {
      var n := |s| - 1;
      SortIsStable(s[..n], leq);
      InsertSorted(StableSort(s[..n], leq), s[n], leq);
      forall x ensures Select(StableSort(s, leq), x, leq) == Select(s, x, leq) {
        InsertStable(StableSort(s[..n], leq), s[n], x, leq);
      }
    }
  }

  lemma {:induction false} SelectMembers<T>(s: seq<T>, x: T, leq: (T, T) -> bool, y: T)
    ensures y in Select(s, x, leq) <==> y in s && Same(y, x, leq)
  {
    if s != [] {
      SelectMembers(s[..|s| - 1], x, leq, y);
      assert s == s[..|s| - 1] + [s[|s| - 1]];
    }
  }

  /** Two sorted arrangements with the same classes are the same. */
  lemma {:induction false} SortedUnique<T(!new)>(a: seq<T>, b: seq<T>, leq: (T, T) -> bool)
    requires TotalPreorder(leq) && Sorted(a, leq) && Sorted(b, leq)
    requires SameClasses(a, b, leq)
    ensures a == b
  {
    if a == [] {
      if b != [] { NonEmptyClass(b, |b| - 1, leq); assert Select(a, b[|b| - 1], leq) == []; assert false; }
    } else if b == [] {
      NonEmptyClass(a, |a| - 1, leq);
      assert Select(b, a[|a| - 1], leq) == [];
      assert false;
    } else {
      var m, n := |a| - 1, |b| - 1;
      LastAbove(b, a, leq);
      LastAbove(a, b, leq);
      assert Same(a[m], b[n], leq) && Same(b[n], b[n], leq);
      assert Select(a, b[n], leq) == Select(b, b[n], leq);
      assert Select(a, b[n], leq) == Select(a[..m], b[n], leq) + [a[m]];
      assert Select(b, b[n], leq) == Select(b[..n], b[n], leq) + [b[n]];
      SameLast(Select(a[..m], b[n], leq), a[m], Select(b[..n], b[n], leq), b[n]);
      forall x ensures Select(a[..m], x, leq) == Select(b[..n], x, leq) {
        var tail := if Same(a[m], x, leq) then [a[m]] else [];
        assert Select(a, x, leq) == Select(a[..m], x, leq) + tail;
        assert Select(b, x, leq) == Select(b[..n], x, leq) + tail;
        SameFront(Select(a[..m], x, leq), Select(b[..n], x, leq), tail);
      }
      SortedUnique(a[..m], b[..n], leq);
    }
  }

  lemma SameFront<T>(p: seq<T>, q: seq<T>, tail: seq<T>)
    requires p + tail == q + tail
    ensures p == q
  {
    assert |p| == |q|;
    assert p == (p + tail)[..|p|];
    assert q == (q + tail)[..|p|];
  }

  lemma SameLast<T>(p: seq<T>, x: T, q: seq<T>, y: T)
    requires p + [x] == q + [y]
    ensures x == y
  {
    assert (p + [x])[|p|] == x && (q + [y])[|q|] == y && |p| == |q|;
  }

  lemma NonEmptyClass<T(!new)>(s: seq<T>, i: nat, leq: (T, T) -> bool)
    requires TotalPreorder(leq) && i < |s|
    ensures Select(s, s[i], leq) != []
  {
    SelectMembers(s, s[i], leq, s[i]);
  }

  /** The last of a sorted sequence is above everything in another with the same classes. */
  lemma LastAbove<T(!new)>(a: seq<T>, b: seq<T>, leq: (T, T) -> bool)
    requires TotalPreorder(leq) && a != [] && b != [] && Sorted(b, leq)
    requires SameClasses(a, b, leq)
    ensures leq(a[|a| - 1], b[|b| - 1])
  {
    var x := a[|a| - 1];
    NonEmptyClass(a, |a| - 1, leq);
    assert Select(b, x, leq) != [];
    var y := Select(b, x, leq)[0];
    SelectMembers(b, x, leq, y);
    var i :| 0 <= i < |b| && b[i] == y;
    assert i == |b| - 1 || leq(b[i], b[|b| - 1]);
  }

  /** So sorting forgets every order but the one within a class, and sorting again changes nothing. */
  lemma SortForgetsOrder<T(!new)>(a: seq<T>, b: seq<T>, leq: (T, T) -> bool)
    requires TotalPreorder(leq) && SameClasses(a, b, leq)
    ensures StableSort(a, leq) == StableSort(b, leq)
  {
    SortIsStable(a, leq);
    SortIsStable(b, leq);
    forall x ensures Select(StableSort(a, leq), x, leq) == Select(StableSort(b, leq), x, leq) {
      assert Select(a, x, leq) == Select(b, x, leq);
    }
    SortedUnique(StableSort(a, leq), StableSort(b, leq), leq);
  }

  /** And it forgets nothing else. */
  lemma SameSorted<T(!new)>(a: seq<T>, b: seq<T>, leq: (T, T) -> bool)
    requires TotalPreorder(leq)
    ensures StableSort(a, leq) == StableSort(b, leq) <==> SameClasses(a, b, leq)
  {
    SortIsStable(a, leq);
    SortIsStable(b, leq);
    if StableSort(a, leq) == StableSort(b, leq) {
      forall x ensures Select(a, x, leq) == Select(b, x, leq) {
        assert Select(StableSort(a, leq), x, leq) == Select(a, x, leq);
      }
    } else if SameClasses(a, b, leq) {
      SortForgetsOrder(a, b, leq);
    }
  }

  lemma SortTwice<T(!new)>(s: seq<T>, leq: (T, T) -> bool)
    requires TotalPreorder(leq)
    ensures StableSort(StableSort(s, leq), leq) == StableSort(s, leq)
  {
    SortIsStable(s, leq);
    SortForgetsOrder(StableSort(s, leq), s, leq);
  }

  lemma {:induction false} SelectAppend<T>(a: seq<T>, b: seq<T>, x: T, leq: (T, T) -> bool)
    ensures Select(a + b, x, leq) == Select(a, x, leq) + Select(b, x, leq)
  {
    if b == [] {
      assert a + b == a;
    } else {
      var n := |b| - 1;
      assert (a + b)[..|a + b| - 1] == a + b[..n];
      SelectAppend(a, b[..n], x, leq);
    }
  }

  lemma SelectPair<T>(p: T, q: T, x: T, leq: (T, T) -> bool)
    ensures Select([p, q], x, leq) ==
            (if Same(p, x, leq) then [p] else []) + (if Same(q, x, leq) then [q] else [])
  {
    assert [p] + [q] == [p, q] && [] + [p] == [p];
    SelectSnoc([p], q, x, leq);
    SelectSnoc([], p, x, leq);
  }

  lemma SelectSwap<T(!new)>(a: seq<T>, p: T, q: T, b: seq<T>, x: T, leq: (T, T) -> bool)
    requires TotalPreorder(leq) && !Same(p, q, leq)
    ensures Select(a + [p, q] + b, x, leq) == Select(a + [q, p] + b, x, leq)
  {
    SelectAppend(a + [p, q], b, x, leq);
    SelectAppend(a, [p, q], x, leq);
    SelectAppend(a + [q, p], b, x, leq);
    SelectAppend(a, [q, p], x, leq);
    assert !(Same(p, x, leq) && Same(q, x, leq));
    SelectPair(p, q, x, leq);
    SelectPair(q, p, x, leq);
  }

  /** Exchanging two neighbours that are not equivalent is one of the orders forgotten. */
  lemma SwapForgotten<T(!new)>(a: seq<T>, p: T, q: T, b: seq<T>, leq: (T, T) -> bool)
    requires TotalPreorder(leq) && !Same(p, q, leq)
    ensures StableSort(a + [p, q] + b, leq) == StableSort(a + [q, p] + b, leq)
  {
    forall x ensures Select(a + [p, q] + b, x, leq) == Select(a + [q, p] + b, x, leq) {
      SelectSwap(a, p, q, b, x, leq);
    }
    SortForgetsOrder(a + [p, q] + b, a + [q, p] + b, leq);
  }
}
