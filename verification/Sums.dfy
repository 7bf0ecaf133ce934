/** Sums of integer terms over lists. */
module Sums {

  function Sum<T>(items: seq<T>, term: T -> int): int {
    if items == [] then 0 else term(items[0]) + Sum(items[1..], term)
  }

  ghost predicate Distinct<T(!new)>(items: seq<T>) { forall i, j :: 0 <= i < j < |items| ==> items[i] != items[j] }

  lemma {:induction false} SumAppend<T>(items: seq<T>, x: T, term: T -> int)
    ensures Sum(items + [x], term) == Sum(items, term) + term(x)
  {
    if items == [] {
      assert items + [x] == [x];
    } else {
      assert (items + [x])[1..] == items[1..] + [x];
      SumAppend(items[1..], x, term);
    }
  }

  lemma SumOne<T>(x: T, term: T -> int)
    ensures Sum([x], term) == term(x)
  {
    assert [x][1..] == [];
  }

  /** Terms that agree on all items but one give sums that differ by that item's change. */
  lemma {:induction false} SumChanged<T(!new)>(items: seq<T>, x: T, before: T -> int, after: T -> int)
    requires Distinct(items) && forall y :: y in items && y != x ==> before(y) == after(y)
    ensures Sum(items, after) == Sum(items, before) + if x in items then after(x) - before(x) else 0
  {
    if items != [] {
      SumChanged(items[1..], x, before, after);
      assert items == [items[0]] + items[1..];
      if items[0] == x { assert x !in items[1..]; }
    }
  }

  lemma {:induction false} SumSame<T>(items: seq<T>, before: T -> int, after: T -> int)
    requires forall y :: y in items ==> before(y) == after(y)
    ensures Sum(items, before) == Sum(items, after)
  {
    if items != [] { SumSame(items[1..], before, after); }
  }

  lemma {:induction false} SumPlus<T>(items: seq<T>, a: T -> int, b: T -> int, total: T -> int)
    requires forall y :: y in items ==> total(y) == a(y) + b(y)
    ensures Sum(items, total) == Sum(items, a) + Sum(items, b)
  {
    if items != [] { SumPlus(items[1..], a, b, total); }
  }

  lemma {:induction false} SumAtMost<T>(items: seq<T>, a: T -> int, b: T -> int)
    requires forall y :: y in items ==> a(y) <= b(y)
    ensures Sum(items, a) <= Sum(items, b)
  {
    if items != [] { SumAtMost(items[1..], a, b); }
  }

  lemma {:induction false} SumNegated<T>(items: seq<T>, term: T -> int, negated: T -> int)
    requires forall y :: y in items ==> negated(y) == -term(y)
    ensures Sum(items, negated) == -Sum(items, term)
  {
    if items != [] { SumNegated(items[1..], term, negated); }
  }

  /** A sum of terms that are not negative is zero only when all of them are. */
  lemma {:induction false} SumNonNegative<T>(items: seq<T>, term: T -> int)
    requires forall y :: y in items ==> term(y) >= 0
    ensures Sum(items, term) >= 0
    ensures forall y :: y in items ==> term(y) <= Sum(items, term)
    ensures Sum(items, term) == 0 <==> forall y :: y in items ==> term(y) == 0
  {
    if items != [] {
      SumNonNegative(items[1..], term);
      assert items == [items[0]] + items[1..];
    }
  }
}
