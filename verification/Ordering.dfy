/** `toSorted()` on strings: ascending by code unit, the shorter of two strings first when one begins the other. */
module Ordering {
  import opened Collections

  predicate AtMost(a: string, b: string) {
    if a == [] then true
    else if b == [] then false
    else if a[0] != b[0] then a[0] < b[0]
    else AtMost(a[1..], b[1..])
  }

  function Insert(x: string, s: seq<string>): seq<string> {
    if s == [] then [x]
    else if AtMost(x, s[0]) then [x] + s
    else [s[0]] + Insert(x, s[1..])
  }

  function SortStrings(s: seq<string>): seq<string> {
    if s == [] then [] else Insert(s[0], SortStrings(s[1..]))
  }

  ghost predicate Ascending(s: seq<string>) {
    forall i, j :: 0 <= i < j < |s| ==> AtMost(s[i], s[j])
  }

  /** Position `k` is the first where the strings differ, or where the first of them ends. */
  ghost predicate FirstApart(a: string, b: string, k: nat) {
    && k <= |a| && k <= |b| && a[..k] == b[..k]
    && (k < |a| && k < |b| ==> a[k] != b[k])
    && (k < |a| || k < |b| || a == b)
  }

  /** Where two strings part, the one that ends or has the smaller character comes first. */
  lemma {:induction false} AtMostMeans(a: string, b: string, k: nat)
    requires FirstApart(a, b, k)
    ensures AtMost(a, b) <==> k == |a| || (k < |b| && a[k] < b[k])
  {
    if k > 0 {
      assert a[..k][0] == b[..k][0];
      assert a[1..][..k - 1] == a[..k][1..] && b[1..][..k - 1] == b[..k][1..];
      AtMostMeans(a[1..], b[1..], k - 1);
    }
  }

  lemma {:induction false} AtMostTotal(a: string, b: string)
    ensures AtMost(a, b) || AtMost(b, a)
    ensures AtMost(a, b) && AtMost(b, a) ==> a == b
  {
    if a != [] && b != [] && a[0] == b[0] {
      AtMostTotal(a[1..], b[1..]);
      assert a == [a[0]] + a[1..] && b == [b[0]] + b[1..];
    }
  }

  lemma {:induction false} AtMostTransitive(a: string, b: string, c: string)
    requires AtMost(a, b) && AtMost(b, c)
    ensures AtMost(a, c)
  {
    if a != [] && b != [] && c != [] && a[0] == b[0] == c[0] {
      AtMostTransitive(a[1..], b[1..], c[1..]);
    }
  }

  lemma ElementsCons(x: string, s: seq<string>)
    ensures Elements([x] + s) == {x} + Elements(s)
  {
    assert forall y :: y in [x] + s <==> y == x || y in s;
  }

  lemma {:induction false} InsertElements(x: string, s: seq<string>)
    ensures Elements(Insert(x, s)) == {x} + Elements(s)
    ensures NoRepeats(s) && x !in s ==> NoRepeats(Insert(x, s))
  {
    if s == [] || AtMost(x, s[0]) {
      ElementsCons(x, s);
    } else {
      InsertElements(x, s[1..]);
      var rest := Insert(x, s[1..]);
      assert s == [s[0]] + s[1..];
      ElementsCons(s[0], s[1..]);
      ElementsCons(s[0], rest);
      assert forall i :: 0 <= i < |rest| ==> rest[i] in Elements(rest);
    }
  }

  lemma {:induction false} InsertAscends(x: string, s: seq<string>)
    requires Ascending(s)
    ensures Ascending(Insert(x, s))
  {
    if s == [] {
    } else if AtMost(x, s[0]) {
      forall j | 0 < j < |s| ensures AtMost(x, s[j]) {
        AtMostTransitive(x, s[0], s[j]);
      }
    } else {
      InsertAscends(x, s[1..]);
      InsertElements(x, s[1..]);
      AtMostTotal(x, s[0]);
      hide AtMost;
      var rest := Insert(x, s[1..]);
      forall j | 0 <= j < |rest| ensures AtMost(s[0], rest[j]) {
        assert rest[j] in Elements(rest);
      }
    }
  }

  lemma {:induction false} SortKeeps(s: seq<string>)
    ensures Elements(SortStrings(s)) == Elements(s)
    ensures NoRepeats(s) ==> NoRepeats(SortStrings(s))
    ensures Ascending(SortStrings(s))
  {
    if s != [] {
      SortKeeps(s[1..]);
      InsertElements(s[0], SortStrings(s[1..]));
      InsertAscends(s[0], SortStrings(s[1..]));
      assert s == [s[0]] + s[1..];
      ElementsCons(s[0], s[1..]);
      if NoRepeats(s) {
        assert s[0] !in Elements(s[1..]);
      }
    }
  }

  lemma {:induction false} InsertKeepsAll(x: string, s: seq<string>)
    ensures multiset(Insert(x, s)) == multiset{x} + multiset(s)
  {
    if s != [] && !AtMost(x, s[0]) {
      InsertKeepsAll(x, s[1..]);
      assert s == [s[0]] + s[1..];
    }
  }

  /** Sorting keeps every string, as often as it was there. */
  lemma {:induction false} SortKeepsAll(s: seq<string>)
    ensures multiset(SortStrings(s)) == multiset(s)
    ensures |SortStrings(s)| == |s|
  {
    if s != [] {
      SortKeepsAll(s[1..]);
      InsertKeepsAll(s[0], SortStrings(s[1..]));
      assert s == [s[0]] + s[1..];
    }
    assert |multiset(SortStrings(s))| == |SortStrings(s)| && |multiset(s)| == |s|;
  }

  lemma NoElements(s: seq<string>)
    ensures Elements(s) == {} <==> s == []
  {
    if s != [] {
      assert s[0] in Elements(s);
    }
  }

  /** A sorted list without repeats is determined by what it holds. */
  lemma {:induction false} SortedListUnique(a: seq<string>, b: seq<string>)
    requires Ascending(a) && Ascending(b) && NoRepeats(a) && NoRepeats(b)
    requires Elements(a) == Elements(b)
    ensures a == b
  {
    if a == [] {
      NoElements(b);
    } else {
      assert a[0] in Elements(b);
      assert b != [] && b[0] in Elements(a);
      var i :| 0 <= i < |b| && b[i] == a[0];
      var j :| 0 <= j < |a| && a[j] == b[0];
      AtMostTotal(a[0], b[0]);
      assert a[0] == b[0];
      forall x ensures x in Elements(a[1..]) <==> x in Elements(b[1..]) {
        assert x in Elements(a) <==> x == a[0] || x in Elements(a[1..]);
        assert x in Elements(b) <==> x == b[0] || x in Elements(b[1..]);
      }
      SortedListUnique(a[1..], b[1..]);
      assert a == [a[0]] + a[1..] && b == [b[0]] + b[1..];
    }
  }
}
