/**
 * What a tally stands for, whatever order its parts were added in: a cost, two counts and a
 * set of reasons. Counts add up componentwise, which makes every conservation law of the
 * allocation an equation between sums.
 */
module Counts {
  import opened Collections

  datatype Count = Count(cost: real, priced: int, requests: int, reasons: set<string>) {
    ghost function Plus(other: Count): Count {
      Count(cost + other.cost, priced + other.priced, requests + other.requests, reasons + other.reasons)
    }

    /** The numbers without the reasons. */
    ghost function Amount(): Count {
      this.(reasons := {})
    }
  }

  const ZERO: Count := Count(0.0, 0, 0, {})

  lemma PlusZero(a: Count)
    ensures a.Plus(ZERO) == a && ZERO.Plus(a) == a
  {
    assert a.reasons + {} == a.reasons && {} + a.reasons == a.reasons;
  }

  lemma PlusCommutes(a: Count, b: Count)
    ensures a.Plus(b) == b.Plus(a)
  {
    assert a.reasons + b.reasons == b.reasons + a.reasons;
  }

  lemma PlusAssociates(a: Count, b: Count, c: Count)
    ensures a.Plus(b).Plus(c) == a.Plus(b.Plus(c))
  {
    assert (a.reasons + b.reasons) + c.reasons == a.reasons + (b.reasons + c.reasons);
  }

  lemma PlusExchanges(a: Count, b: Count, c: Count, d: Count)
    ensures a.Plus(b).Plus(c.Plus(d)) == a.Plus(c).Plus(b.Plus(d))
  {
    assert (a.reasons + b.reasons) + (c.reasons + d.reasons) == (a.reasons + c.reasons) + (b.reasons + d.reasons);
  }

  lemma AmountPlus(a: Count, b: Count)
    ensures a.Plus(b).Amount() == a.Amount().Plus(b.Amount())
  {
    var none: set<string> := {};
    assert none + none == none;
  }

  /** Adding changes no number exactly when what is added has none. */
  lemma AmountCancels(a: Count, b: Count)
    ensures a.Plus(b).Amount() == a.Amount() <==> b.Amount() == ZERO
  {
  }

  ghost function ReasonOnly(reasons: set<string>): Count {
    Count(0.0, 0, 0, reasons)
  }

  ghost function Sum<T>(s: seq<T>, f: T -> Count): Count {
    if s == [] then ZERO else f(s[0]).Plus(Sum(s[1..], f))
  }

  ghost function SumWhere<T>(s: seq<T>, keep: set<T>, f: T -> Count): Count {
    Sum(Where(s, keep), f)
  }

  lemma {:induction false} SumConcat<T>(a: seq<T>, b: seq<T>, f: T -> Count)
    ensures Sum(a + b, f) == Sum(a, f).Plus(Sum(b, f))
  {
    if a == [] {
      assert a + b == b;
      PlusZero(Sum(b, f));
    } else {
      assert (a + b)[1..] == a[1..] + b;
      SumConcat(a[1..], b, f);
      PlusAssociates(f(a[0]), Sum(a[1..], f), Sum(b, f));
    }
  }

  lemma SumSnoc<T>(front: seq<T>, last: T, f: T -> Count)
    ensures Sum(front + [last], f) == Sum(front, f).Plus(f(last))
  {
    SumConcat(front, [last], f);
    assert Sum([last], f) == f(last).Plus(Sum([], f));
    PlusZero(f(last));
  }

  /** Two sums over the same values agree when the summands agree. */
  lemma {:induction false} SumCongruent<T>(s: seq<T>, f: T -> Count, g: T -> Count)
    requires forall x :: x in s ==> f(x) == g(x)
    ensures Sum(s, f) == Sum(s, g)
  {
    if s != [] {
      SumCongruent(s[1..], f, g);
    }
  }

  lemma {:induction false} SumAmount<T>(s: seq<T>, f: T -> Count, g: T -> Count)
    requires forall x :: x in s ==> f(x).Amount() == g(x).Amount()
    ensures Sum(s, f).Amount() == Sum(s, g).Amount()
  {
    if s != [] {
      SumAmount(s[1..], f, g);
    }
  }

  lemma {:induction false} SumPlus<T>(s: seq<T>, f: T -> Count, g: T -> Count, h: T -> Count)
    requires forall x :: x in s ==> h(x) == f(x).Plus(g(x))
    ensures Sum(s, h) == Sum(s, f).Plus(Sum(s, g))
  {
    if s == [] {
      PlusZero(ZERO);
    } else {
      SumPlus(s[1..], f, g, h);
      assert s[0] in s;
      PlusExchanges(f(s[0]), g(s[0]), Sum(s[1..], f), Sum(s[1..], g));
    }
  }

  lemma {:induction false} SumWhereUnion<T>(s: seq<T>, a: set<T>, b: set<T>, f: T -> Count)
    requires a !! b
    ensures SumWhere(s, a + b, f) == SumWhere(s, a, f).Plus(SumWhere(s, b, f))
  {
    if s == [] {
      PlusZero(ZERO);
    } else {
      SumWhereUnion(s[1..], a, b, f);
      SumWhereStep(s, a, f);
      SumWhereStep(s, b, f);
      SumWhereStep(s, a + b, f);
      var x := if s[0] in a then f(s[0]) else ZERO;
      var y := if s[0] in b then f(s[0]) else ZERO;
      PlusZero(x);
      PlusZero(y);
      PlusExchanges(x, y, SumWhere(s[1..], a, f), SumWhere(s[1..], b, f));
    }
  }

  lemma SumWhereStep<T>(s: seq<T>, keep: set<T>, f: T -> Count)
    requires s != []
    ensures SumWhere(s, keep, f) == (if s[0] in keep then f(s[0]) else ZERO).Plus(SumWhere(s[1..], keep, f))
  {
    PlusZero(SumWhere(s[1..], keep, f));
    if s[0] in keep {
      assert Where(s, keep)[0] == s[0] && Where(s, keep)[1..] == Where(s[1..], keep);
    }
  }

  lemma SumWhereNothing<T>(s: seq<T>, keep: set<T>, reasons: set<string>, f: T -> Count)
    requires keep == {} && reasons == {}
    ensures ReasonOnly(reasons).Plus(SumWhere(s, keep, f)) == ZERO
  {
    WhereNone(s, keep);
    PlusZero(ZERO);
  }

  ghost function UnionOf<T>(sets: seq<set<T>>): set<T> {
    if sets == [] then {} else sets[0] + UnionOf(sets[1..])
  }

  ghost predicate Disjoint<T>(sets: seq<set<T>>) {
    forall i, j :: 0 <= i < j < |sets| ==> sets[i] !! sets[j]
  }

  ghost function SumOfSets<T>(s: seq<T>, sets: seq<set<T>>, f: T -> Count): Count {
    if sets == [] then ZERO else SumWhere(s, sets[0], f).Plus(SumOfSets(s, sets[1..], f))
  }

  lemma {:induction false} UnionMember<T>(sets: seq<set<T>>, x: T)
    ensures x in UnionOf(sets) <==> exists i :: 0 <= i < |sets| && x in sets[i]
  {
    if sets != [] {
      UnionMember(sets[1..], x);
      if x in UnionOf(sets[1..]) {
        var i :| 0 <= i < |sets[1..]| && x in sets[1..][i];
        assert x in sets[i + 1];
      }
      if i :| 0 <= i < |sets| && x in sets[i] {
        if i > 0 {
          assert x in sets[1..][i - 1];
        }
      }
    }
  }

  /** Splitting what is summed into disjoint classes changes nothing. */
  lemma {:induction false} SumOfDisjointSets<T>(s: seq<T>, sets: seq<set<T>>, f: T -> Count)
    requires Disjoint(sets)
    ensures SumWhere(s, UnionOf(sets), f) == SumOfSets(s, sets, f)
  {
    if sets == [] {
      WhereNone(s, {});
    } else {
      forall x | x in UnionOf(sets[1..]) ensures x !in sets[0] {
        UnionMember(sets[1..], x);
        var i :| 0 <= i < |sets[1..]| && x in sets[1..][i];
        assert sets[0] !! sets[i + 1];
      }
      forall i, j | 0 <= i < j < |sets[1..]| ensures sets[1..][i] !! sets[1..][j] {
        assert sets[i + 1] !! sets[j + 1];
      }
      SumOfDisjointSets(s, sets[1..], f);
      SumWhereUnion(s, sets[0], UnionOf(sets[1..]), f);
    }
  }

  lemma {:induction false} SumSingleton<T>(s: seq<T>, x: T, f: T -> Count)
    requires NoRepeats(s) && x in s
    ensures SumWhere(s, {x}, f) == f(x)
  {
    WhereSingleton(s, x);
    assert Sum([x], f) == f(x).Plus(Sum([], f));
    PlusZero(f(x));
  }

  /** A sum over values listed without repeats does not depend on their order. */
  lemma {:induction false} SumSameElements<T>(s: seq<T>, t: seq<T>, f: T -> Count)
    requires NoRepeats(s) && NoRepeats(t) && Elements(s) == Elements(t)
    ensures Sum(s, f) == Sum(t, f)
  {
    if s == [] {
      WhereAll(t, {});
      WhereNone(t, {});
    } else {
      var tail := s[1..];
      assert Elements(s) == {s[0]} + Elements(tail) && s[0] !in Elements(tail);
      assert s[0] in Elements(t);
      WhereElements(t, Elements(tail));
      SumSameElements(tail, Where(t, Elements(tail)), f);
      SumWhereUnion(t, {s[0]}, Elements(tail), f);
      SumSingleton(t, s[0], f);
      WhereAll(t, Elements(t));
    }
  }

  /** Counts no request, or counts nothing else without one. */
  ghost predicate ByRequest(a: Count) {
    a.requests >= 0 && (a.requests == 0 ==> a.Amount() == ZERO)
  }

  lemma NothingSplits(a: Count, b: Count)
    requires ByRequest(a) && ByRequest(b)
    ensures ByRequest(a.Plus(b))
    ensures a.Plus(b).requests == 0 <==> a.requests == 0 && b.requests == 0
  {
  }

  /** Where no summand counts anything without a request, a sum has no request exactly when no summand has one. */
  lemma {:induction false} SumIsNothing<T>(s: seq<T>, f: T -> Count)
    requires forall x :: x in s ==> ByRequest(f(x))
    ensures ByRequest(Sum(s, f))
    ensures Sum(s, f).requests == 0 <==> forall x :: x in s ==> f(x).requests == 0
  {
    if s != [] {
      SumIsNothing(s[1..], f);
      NothingSplits(f(s[0]), Sum(s[1..], f));
      hide ByRequest;
      assert forall x :: x in s <==> x == s[0] || x in s[1..];
    }
  }

  lemma {:induction false} SumCostNonNegative<T>(s: seq<T>, f: T -> Count)
    requires forall x :: x in s ==> f(x).cost >= 0.0
    ensures Sum(s, f).cost >= 0.0
  {
    if s != [] {
      SumCostNonNegative(s[1..], f);
    }
  }

  /** Leaving values out cannot make a sum of costs larger. */
  lemma SumWhereAtMost<T>(s: seq<T>, keep: set<T>, f: T -> Count)
    requires forall x :: x in s ==> f(x).cost >= 0.0
    ensures SumWhere(s, keep, f).cost <= Sum(s, f).cost
  {
    var rest := Elements(s) - keep;
    SumWhereUnion(s, keep, rest, f);
    WhereAll(s, keep + rest);
    WhereElements(s, rest);
    forall x | x in Where(s, rest) ensures x in s {
      assert x in Elements(Where(s, rest));
    }
    SumCostNonNegative(Where(s, rest), f);
  }
}
