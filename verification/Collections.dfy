/**
 * Ordered collections as JavaScript's Set, Map and Array keep them: a Set built from a
 * list keeps each value at its first position, and a filter keeps the order.
 */
module Collections {

  /** `[...new Set(s)]`: each value once, at its first position. */
  function Distinct<T(==)>(s: seq<T>): seq<T> {
    if s == [] then []
    else
      var rest := Distinct(s[..|s| - 1]);
      var last := s[|s| - 1];
      if last in rest then rest else rest + [last]
  }

  ghost predicate NoRepeats<T>(s: seq<T>) {
    forall i, j :: 0 <= i < j < |s| ==> s[i] != s[j]
  }

  ghost function Elements<T>(s: seq<T>): set<T> {
    set x | x in s
  }

  /** `s.filter(x => keep.has(x))` */
  function Where<T(==)>(s: seq<T>, keep: set<T>): seq<T> {
    if s == [] then []
    else if s[0] in keep then [s[0]] + Where(s[1..], keep)
    else Where(s[1..], keep)
  }

  lemma {:induction false} DistinctElements<T>(s: seq<T>)
    ensures NoRepeats(Distinct(s))
    ensures Elements(Distinct(s)) == Elements(s)
    ensures |Distinct(s)| <= |s|
  {
    if s != [] {
      var front, last := s[..|s| - 1], s[|s| - 1];
      DistinctElements(front);
      assert s == front + [last];
      ElementsSnoc(front, last);
      ElementsSnoc(Distinct(front), last);
      assert last in Distinct(front) <==> last in Elements(Distinct(front));
      if last !in Distinct(front) {
        assert NoRepeats(Distinct(front) + [last]);
      }
    }
  }

  lemma ElementsSnoc<T>(front: seq<T>, last: T)
    ensures Elements(front + [last]) == Elements(front) + {last}
  {
    assert forall x :: x in front + [last] <==> x in front || x == last;
  }

  lemma DistinctSnoc<T>(s: seq<T>, x: T)
    ensures Distinct(s + [x]) == if x in s then Distinct(s) else Distinct(s) + [x]
  {
    assert (s + [x])[..|s|] == s;
    DistinctElements(s);
    assert x in s <==> x in Elements(s);
    assert x in Distinct(s) <==> x in Elements(Distinct(s));
  }

  lemma {:induction false} DistinctOfDistinct<T>(s: seq<T>)
    requires NoRepeats(s)
    ensures Distinct(s) == s
  {
    if s != [] {
      DistinctOfDistinct(s[..|s| - 1]);
      assert s == s[..|s| - 1] + [s[|s| - 1]];
    }
  }

  lemma {:induction false} DistinctShorter<T>(s: seq<T>)
    ensures |Distinct(s)| == |s| <==> NoRepeats(s)
  {
    if s != [] {
      var front := s[..|s| - 1];
      DistinctShorter(front);
      DistinctElements(front);
      if |Distinct(s)| == |s| {
        assert s[|s| - 1] !in Elements(front) && NoRepeats(front);
        forall i, j | 0 <= i < j < |s| ensures s[i] != s[j] {
          if j < |s| - 1 {
            assert front[i] != front[j];
          } else {
            assert front[i] in Elements(front);
          }
        }
      }
    }
    if NoRepeats(s) {
      DistinctOfDistinct(s);
    }
  }

  lemma {:induction false} WhereElements<T>(s: seq<T>, keep: set<T>)
    ensures Elements(Where(s, keep)) == Elements(s) * keep
    ensures NoRepeats(s) ==> NoRepeats(Where(s, keep))
  {
    if s != [] {
      WhereElements(s[1..], keep);
      var tail := Where(s[1..], keep);
      assert Elements(s) == {s[0]} + Elements(s[1..]);
      assert Elements(Where(s, keep)) == (if s[0] in keep then {s[0]} else {}) + Elements(tail);
      if NoRepeats(s) {
        assert s[0] !in Elements(s[1..]);
        assert forall i :: 0 <= i < |tail| ==> tail[i] in Elements(tail);
      }
    }
  }

  lemma {:induction false} WhereConcat<T>(a: seq<T>, b: seq<T>, keep: set<T>)
    ensures Where(a + b, keep) == Where(a, keep) + Where(b, keep)
  {
    if a == [] {
      assert a + b == b;
    } else {
      assert (a + b)[1..] == a[1..] + b;
      WhereConcat(a[1..], b, keep);
    }
  }

  lemma {:induction false} WhereAll<T>(s: seq<T>, keep: set<T>)
    requires Elements(s) <= keep
    ensures Where(s, keep) == s
  {
    if s != [] {
      assert s[0] in Elements(s);
      assert Elements(s[1..]) <= Elements(s);
      WhereAll(s[1..], keep);
    }
  }

  lemma {:induction false} WhereNone<T>(s: seq<T>, keep: set<T>)
    requires Elements(s) !! keep
    ensures Where(s, keep) == []
  {
    if s != [] {
      assert s[0] in Elements(s);
      assert Elements(s[1..]) <= Elements(s);
      WhereNone(s[1..], keep);
    }
  }

  lemma {:induction false} WhereSingleton<T>(s: seq<T>, x: T)
    requires NoRepeats(s) && x in s
    ensures Where(s, {x}) == [x]
  {
    if s[0] == x {
      WhereNone(s[1..], {x});
    } else {
      WhereSingleton(s[1..], x);
    }
  }

  lemma {:induction false} WhereUnionMultiset<T>(s: seq<T>, a: set<T>, b: set<T>)
    requires a !! b
    ensures multiset(Where(s, a + b)) == multiset(Where(s, a)) + multiset(Where(s, b))
  {
    if s != [] {
      WhereUnionMultiset(s[1..], a, b);
    }
  }

  /** `s.map(f)` */
  function Map<T, U>(s: seq<T>, f: T -> U): (mapped: seq<U>)
    ensures |mapped| == |s| && forall i :: 0 <= i < |s| ==> mapped[i] == f(s[i])
  {
    seq(|s|, i requires 0 <= i < |s| => f(s[i]))
  }

  /** Where the first value of one ordering sits in another, and what is left. */
  lemma PermutationSplits<T>(a: seq<T>, b: seq<T>) returns (i: nat)
    requires multiset(a) == multiset(b) && a != []
    ensures i < |b| && b[i] == a[0]
    ensures b == b[..i] + ([b[i]] + b[i + 1..])
    ensures multiset(a[1..]) == multiset(b[..i] + b[i + 1..])
  {
    assert a[0] in multiset(b);
    i :| 0 <= i < |b| && b[i] == a[0];
    assert b == b[..i] + ([b[i]] + b[i + 1..]);
    assert a == [a[0]] + a[1..];
    assert multiset(a) == multiset{a[0]} + multiset(a[1..]);
    assert multiset(b) == multiset(b[..i]) + (multiset{b[i]} + multiset(b[i + 1..]));
    assert multiset(b[..i] + b[i + 1..]) == multiset(b) - multiset{a[0]};
    assert multiset(a[1..]) == multiset(a) - multiset{a[0]};
  }

  lemma PermutationSize<T>(a: seq<T>, b: seq<T>)
    requires multiset(a) == multiset(b)
    ensures |a| == |b|
  {
    assert |multiset(a)| == |a| && |multiset(b)| == |b|;
  }

  lemma MapAround<T, U>(before: seq<T>, x: T, after: seq<T>, f: T -> U)
    ensures multiset(Map(before + ([x] + after), f)) == multiset{f(x)} + multiset(Map(before + after, f))
  {
    assert Map(before + after, f) == Map(before, f) + Map(after, f);
    assert Map(before + ([x] + after), f) == Map(before, f) + ([f(x)] + Map(after, f));
  }

  lemma MapFirst<T, U>(a: seq<T>, f: T -> U)
    requires a != []
    ensures multiset(Map(a, f)) == multiset{f(a[0])} + multiset(Map(a[1..], f))
  {
    assert Map(a, f) == [f(a[0])] + Map(a[1..], f);
  }

  lemma {:induction false} MapPermuted<T, U>(a: seq<T>, b: seq<T>, f: T -> U)
    requires multiset(a) == multiset(b)
    ensures multiset(Map(a, f)) == multiset(Map(b, f))
  {
    PermutationSize(a, b);
    if a != [] {
      hide Map;
      var i := PermutationSplits(a, b);
      MapPermuted(a[1..], b[..i] + b[i + 1..], f);
      MapFirst(a, f);
      MapAround(b[..i], b[i], b[i + 1..], f);
    }
  }

  lemma {:induction false} SubsetSize<T>(a: set<T>, b: set<T>)
    requires a <= b
    ensures |a| <= |b|
  {
    if a != {} {
      var x :| x in a;
      SubsetSize(a - {x}, b - {x});
    }
  }
}
