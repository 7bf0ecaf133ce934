/** Cardinality facts about finite sets. */
module Sets {

  lemma {:induction false} SubsetCard<T>(a: set<T>, b: set<T>)
    requires a <= b
    ensures |a| <= |b|
    ensures a != b ==> |a| < |b|
  {
    assert b == a + (b - a);
    assert |b| == |a| + |b - a|;
    if |b - a| == 0 { assert b - a == {}; }
  }

  /** Two subsets too large to be disjoint share an element. */
  lemma Overlap<T>(a: set<T>, b: set<T>, c: set<T>) returns (x: T)
    requires a <= c && b <= c && |a| + |b| > |c|
    ensures x in a && x in b
  {
    SubsetCard(a + b, c);
    assert |a + b| == |a| + |b| - |a * b|;
    x :| x in a * b;
  }

  function Image<A, B>(s: set<A>, f: A -> B): set<B> {
    set x | x in s :: f(x)
  }

  ghost predicate InjectiveOn<A(!new), B>(s: set<A>, f: A -> B) {
    forall x, y :: x in s && y in s && f(x) == f(y) ==> x == y
  }

  lemma {:induction false} InjectiveImage<A(!new), B>(s: set<A>, f: A -> B)
    requires InjectiveOn(s, f)
    ensures |Image(s, f)| == |s|
    decreases |s|
  {
    if s == {} {
      assert Image(s, f) == {};
    } else {
      var x :| x in s;
      var rest := s - {x};
      InjectiveImage(rest, f);
      assert Image(s, f) == Image(rest, f) + {f(x)};
      assert f(x) !in Image(rest, f);
    }
  }

  /** The distinct elements of a list are at most as many as its places. */
  lemma {:induction false} SeqCard<T>(q: seq<T>)
    ensures |set x | x in q| <= |q|
  {
    if q != [] {
      var n := |q| - 1;
      SeqCard(q[..n]);
      assert (set x | x in q) == (set x | x in q[..n]) + {q[n]};
    }
  }
}
