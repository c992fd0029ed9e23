/** The sizes of sets. */
module Sizes {
  lemma {:induction false} SubsetSize<K>(a: set<K>, b: set<K>)
    requires a <= b
    ensures |a| <= |b|
  {
    assert b == a + (b - a);
  }

  ghost predicate Image<A, B>(s: set<A>, f: A -> B, t: set<B>) {
    (forall x <- s :: f(x) in t) && (forall y <- t :: exists x <- s :: f(x) == y)
  }

  ghost predicate InjectiveOn<A, B>(f: A -> B, s: set<A>) {
    forall x, y :: x in s && y in s && f(x) == f(y) ==> x == y
  }

  lemma OneLess<A, B>(s: set<A>, f: A -> B, t: set<B>, x: A)
    requires Image(s, f, t) && x in s
    ensures Image(s - {x}, f, if exists z <- s - {x} :: f(z) == f(x) then t else t - {f(x)})
  {
    var rest := s - {x};
    forall y | y in t && y != f(x) ensures exists z <- rest :: f(z) == y {
      var z :| z in s && f(z) == y;
      assert z in rest;
    }
  }

  /** An image is no larger than its set, and as large if nothing is mapped together. */
  lemma {:induction false} ImageSize<A, B>(s: set<A>, f: A -> B, t: set<B>)
    requires Image(s, f, t)
    ensures |t| <= |s| && (InjectiveOn(f, s) ==> |t| == |s|)
    decreases |s|
  {
    if x :| x in s {
      OneLess(s, f, t, x);
      var rest := s - {x};
      assert |rest| == |s| - 1 && f(x) in t;
      if exists z <- rest :: f(z) == f(x) {
        ImageSize(rest, f, t);
      } else {
        ImageSize(rest, f, t - {f(x)});
        assert |t - {f(x)}| == |t| - 1;
      }
    } else {
      assert t == {};
    }
  }
}
