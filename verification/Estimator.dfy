/**
 * Paired estimates in exact reals: each case's delta, their mean and its error. `Math.sqrt` is a
 * function the caller supplies.
 */
module Estimator {
  import opened Wrappers
  import opened Collections

  /** What `sqrt` promises on the numbers it is asked about. */
  ghost predicate IsSqrt(sqrt: real -> real) {
    forall x: real :: x >= 0.0 ==> sqrt(x) >= 0.0 && sqrt(x) * sqrt(x) == x
  }

  datatype CaseObservations = CaseObservations(caseId: string, minuend: seq<real>, subtrahend: seq<real>)

  datatype CaseDelta = CaseDelta(caseId: string, value: real)

  datatype PairedEstimate = PairedEstimate(caseDeltas: seq<CaseDelta>, meanDelta: real, standardError: real)

  const NO_OBSERVATIONS := "A paired estimate requires observations in every arm"

  function Total(values: seq<real>): real {
    if values == [] then 0.0 else values[0] + Total(values[1..])
  }

  function InsertValue(x: real, sorted: seq<real>): seq<real> {
    if sorted == [] then [x]
    else if x <= sorted[0] then [x] + sorted
    else [sorted[0]] + InsertValue(x, sorted[1..])
  }

  /** `values.toSorted((left, right) => left - right)` */
  function SortValues(values: seq<real>): seq<real> {
    if values == [] then [] else InsertValue(values[0], SortValues(values[1..]))
  }

  lemma {:induction false} InsertKeepsTotal(x: real, sorted: seq<real>)
    ensures Total(InsertValue(x, sorted)) == x + Total(sorted)
    ensures |InsertValue(x, sorted)| == |sorted| + 1
  {
    if sorted != [] && x > sorted[0] {
      InsertKeepsTotal(x, sorted[1..]);
    }
  }

  /** In exact arithmetic sorting the values first changes neither their sum nor their number. */
  lemma {:induction false} SortKeepsTotal(values: seq<real>)
    ensures Total(SortValues(values)) == Total(values)
    ensures |SortValues(values)| == |values|
  {
    if values != [] {
      SortKeepsTotal(values[1..]);
      InsertKeepsTotal(values[0], SortValues(values[1..]));
    }
  }

  function Mean(values: seq<real>): Result<real> {
    if values == [] then Err(NO_OBSERVATIONS)
    else
      SortKeepsTotal(values);
      Ok(Total(SortValues(values)) / |SortValues(values)| as real)
  }

  lemma MeanIsTotalOverCount(values: seq<real>)
    requires values != []
    ensures Mean(values) == Ok(Total(values) / |values| as real)
  {
    SortKeepsTotal(values);
  }

  lemma {:induction false} TotalConcat(a: seq<real>, b: seq<real>)
    ensures Total(a + b) == Total(a) + Total(b)
  {
    if a == [] {
      assert a + b == b;
    } else {
      assert (a + b)[1..] == a[1..] + b;
      TotalConcat(a[1..], b);
    }
  }

  lemma {:induction false} TotalPermuted(a: seq<real>, b: seq<real>)
    requires multiset(a) == multiset(b)
    ensures Total(a) == Total(b)
  {
    PermutationSize(a, b);
    if a != [] {
      var i := PermutationSplits(a, b);
      TotalPermuted(a[1..], b[..i] + b[i + 1..]);
      TotalConcat(b[..i], b[i + 1..]);
      TotalConcat(b[..i], [b[i]] + b[i + 1..]);
      assert ([b[i]] + b[i + 1..])[1..] == b[i + 1..];
    }
  }

  /** A mean does not depend on the order of its observations. */
  lemma MeanPermuted(a: seq<real>, b: seq<real>)
    requires multiset(a) == multiset(b)
    ensures Mean(a) == Mean(b)
  {
    TotalPermuted(a, b);
    PermutationSize(a, b);
    if a != [] {
      MeanIsTotalOverCount(a);
      MeanIsTotalOverCount(b);
    }
  }

  function MeanValue(values: seq<real>): real {
    if values == [] then 0.0 else Mean(values).value
  }

  function DeltaOf(each: CaseObservations): CaseDelta {
    CaseDelta(each.caseId, MeanValue(each.minuend) - MeanValue(each.subtrahend))
  }

  predicate Observed(cases: seq<CaseObservations>) {
    forall i :: 0 <= i < |cases| ==> Mean(cases[i].minuend).Ok? && Mean(cases[i].subtrahend).Ok?
  }

  function DeltasOf(cases: seq<CaseObservations>): seq<CaseDelta> {
    Map(cases, DeltaOf)
  }

  function ValueOf(delta: CaseDelta): real {
    delta.value
  }

  function ValuesOf(deltas: seq<CaseDelta>): seq<real> {
    Map(deltas, ValueOf)
  }

  function Product(x: real, y: real): real {
    x * y
  }

  function Square(x: real): real {
    Product(x, x)
  }

  function SquareFrom(center: real): real -> real {
    value => Square(value - center)
  }

  function SquaredDifferences(values: seq<real>, center: real): seq<real> {
    Map(values, SquareFrom(center))
  }

  /** The squared error of a mean of n values whose squared deviations add up to `total`. */
  function SquaredError(values: seq<real>, meanValue: real): real
    requires |values| >= 2
  {
    SpreadOfMean(MeanValue(SquaredDifferences(values, meanValue)), |values| as real)
  }

  function SpreadOfMean(meanSquare: real, n: real): real
    requires n >= 2.0
  {
    meanSquare * (n / (n - 1.0)) / n
  }

  function BuildPairedEstimate(cases: seq<CaseObservations>, sqrt: real -> real): Result<PairedEstimate> {
    if |cases| < 2 then Err("A paired estimate requires at least two cases")
    else if !Observed(cases) then Err(NO_OBSERVATIONS)
    else
      var deltas := DeltasOf(cases);
      var values := ValuesOf(deltas);
      var meanDelta := MeanValue(values);
      Ok(PairedEstimate(deltas, meanDelta, sqrt(SquaredError(values, meanDelta))))
  }

  lemma SquareNonNegative(x: real)
    ensures Square(x) >= 0.0
    ensures Square(x) == 0.0 <==> x == 0.0
    ensures Square(-x) == Square(x)
  {
    SquareOfNegated(x);
    if x > 0.0 {
      ProductPositive(x, x);
    } else if x < 0.0 {
      ProductPositive(-x, -x);
      assert Square(-x) > 0.0;
    } else {
      assert Product(x, x) == 0.0;
    }
  }

  lemma SquareOfNegated(x: real)
    ensures Square(-x) == Square(x)
  {
  }

  lemma ProductPositive(x: real, y: real)
    requires x > 0.0 && y > 0.0
    ensures Product(x, y) > 0.0
  {
  }

  lemma {:induction false} SquaresNonNegative(values: seq<real>, center: real)
    ensures Total(SquaredDifferences(values, center)) >= 0.0
    ensures Total(SquaredDifferences(values, center)) == 0.0 <==>
      forall i :: 0 <= i < |values| ==> values[i] == center
  {
    hide Square;
    if values != [] {
      SquaresNonNegative(values[1..], center);
      assert SquaredDifferences(values, center)[1..] == SquaredDifferences(values[1..], center);
      SquareNonNegative(values[0] - center);
      if forall i :: 0 <= i < |values[1..]| ==> values[1..][i] == center {
        assert forall i :: 0 < i < |values| ==> values[i] == values[1..][i - 1];
      }
      if forall i :: 0 <= i < |values| ==> values[i] == center {
        assert forall i :: 0 <= i < |values[1..]| ==> values[1..][i] == values[i + 1];
      }
    }
  }

  lemma SampleVarianceOverN(total: real, n: real)
    requires n > 1.0
    ensures (total / n) * (n / (n - 1.0)) / n == total / (n * (n - 1.0))
  {
    var m := n - 1.0;
    assert (total / n) * (n / m) == total / m by {
      var q, r := total / n, n / m;
      assert q * n == total;
      assert r * m == n;
      assert (q * r) * m == q * (r * m) == total;
    }
    var s := total / m;
    assert s / n == total / (n * m) by {
      assert s * m == total;
      var t := s / n;
      assert t * n == s;
      assert t * (n * m) == (t * n) * m == total;
      assert n * m > 0.0;
    }
  }

  lemma QuotientNonNegative(a: real, b: real)
    requires a >= 0.0 && b > 0.0
    ensures a / b >= 0.0
  {
  }

  /** A sum over n(n-1). */
  function OverPairs(total: real, n: real): real
    requires n >= 2.0
  {
    total / (n * (n - 1.0))
  }

  lemma SpreadMeans(meanSquare: real, total: real, n: real)
    requires n >= 2.0 && total >= 0.0 && meanSquare == total / n
    ensures SpreadOfMean(meanSquare, n) == OverPairs(total, n) >= 0.0
  {
    SampleVarianceOverN(total, n);
    ProductPositive(n, n - 1.0);
    QuotientNonNegative(total, n * (n - 1.0));
  }

  lemma MeanOfSquares(values: seq<real>, center: real)
    requires values != []
    ensures MeanValue(SquaredDifferences(values, center)) == Total(SquaredDifferences(values, center)) / |values| as real
  {
    assert |SquaredDifferences(values, center)| == |values|;
    MeanIsTotalOverCount(SquaredDifferences(values, center));
  }

  lemma SquaredErrorMeans(values: seq<real>, meanValue: real)
    requires |values| >= 2
    ensures SquaredError(values, meanValue) == OverPairs(Total(SquaredDifferences(values, meanValue)), |values| as real) >= 0.0
  {
    MeanOfSquares(values, meanValue);
    SquaresNonNegative(values, meanValue);
    hide MeanValue, SquaredDifferences, Total, SpreadOfMean, OverPairs;
    SpreadMeans(
      MeanValue(SquaredDifferences(values, meanValue)), Total(SquaredDifferences(values, meanValue)), |values| as real);
  }

  /** The standard error squared is the sum of squared deviations over n(n-1); the mean delta is the deltas' mean. */
  lemma PairedStandardError(cases: seq<CaseObservations>, sqrt: real -> real)
    requires |cases| >= 2 && Observed(cases) && IsSqrt(sqrt)
    ensures var estimate := BuildPairedEstimate(cases, sqrt).value;
      var values := ValuesOf(estimate.caseDeltas);
      var n := |cases| as real;
      && estimate.meanDelta == Total(values) / n
      && estimate.standardError >= 0.0
      && Square(estimate.standardError) == OverPairs(Total(SquaredDifferences(values, estimate.meanDelta)), n)
  {
    hide SquaredError, SquaredDifferences, OverPairs;
    var values := ValuesOf(DeltasOf(cases));
    MeanIsTotalOverCount(values);
    SquaredErrorMeans(values, MeanValue(values));
  }

  /** An arithmetic mean, as a sum over a count. */
  ghost function Average(values: seq<real>): real
    requires values != []
  {
    Total(values) / |values| as real
  }

  /** An estimate needs two cases and an observation in each arm of every case. */
  lemma EstimatedExactlyWhen(cases: seq<CaseObservations>, sqrt: real -> real)
    ensures BuildPairedEstimate(cases, sqrt).Ok? <==>
      |cases| >= 2 && forall i :: 0 <= i < |cases| ==> cases[i].minuend != [] && cases[i].subtrahend != []
  {
  }

  /** There is one delta for each case, in order: the minuend's mean less the subtrahend's. */
  lemma PairedDeltas(cases: seq<CaseObservations>, sqrt: real -> real)
    requires BuildPairedEstimate(cases, sqrt).Ok?
    ensures var deltas := BuildPairedEstimate(cases, sqrt).value.caseDeltas;
      |deltas| == |cases| && forall i :: 0 <= i < |cases| ==>
        && cases[i].minuend != [] && cases[i].subtrahend != []
        && deltas[i] == CaseDelta(cases[i].caseId, Average(cases[i].minuend) - Average(cases[i].subtrahend))
  {
    hide SquaredError;
    forall i | 0 <= i < |cases|
      ensures cases[i].minuend != [] && cases[i].subtrahend != []
      ensures DeltaOf(cases[i]) == CaseDelta(cases[i].caseId, Average(cases[i].minuend) - Average(cases[i].subtrahend))
    {
      assert Mean(cases[i].minuend).Ok? && Mean(cases[i].subtrahend).Ok?;
      MeanIsTotalOverCount(cases[i].minuend);
      MeanIsTotalOverCount(cases[i].subtrahend);
    }
  }

  /** Reordering the cases reorders their deltas and changes neither the mean delta nor its error. */
  lemma PairedPermuted(a: seq<CaseObservations>, b: seq<CaseObservations>, sqrt: real -> real)
    requires multiset(a) == multiset(b)
    ensures BuildPairedEstimate(a, sqrt).Ok? <==> BuildPairedEstimate(b, sqrt).Ok?
    ensures BuildPairedEstimate(a, sqrt).Ok? ==>
      var left, right := BuildPairedEstimate(a, sqrt).value, BuildPairedEstimate(b, sqrt).value;
      && multiset(left.caseDeltas) == multiset(right.caseDeltas)
      && left.meanDelta == right.meanDelta && left.standardError == right.standardError
  {
    hide Square, Mean, SpreadOfMean;
    PermutationSize(a, b);
    if Observed(a) {
      SameObserved(a, b);
    }
    if Observed(b) {
      SameObserved(b, a);
    }
    MapPermuted(a, b, DeltaOf);
    MapPermuted(DeltasOf(a), DeltasOf(b), ValueOf);
    var va, vb := ValuesOf(DeltasOf(a)), ValuesOf(DeltasOf(b));
    MeanPermuted(va, vb);
    PermutationSize(va, vb);
    var center := MeanValue(va);
    MapPermuted(va, vb, SquareFrom(center));
    PermutationSize(SquaredDifferences(va, center), SquaredDifferences(vb, center));
    MeanPermuted(SquaredDifferences(va, center), SquaredDifferences(vb, center));
  }

  lemma SameObserved(a: seq<CaseObservations>, b: seq<CaseObservations>)
    requires multiset(a) == multiset(b) && Observed(a)
    ensures Observed(b)
  {
    forall i | 0 <= i < |b| ensures Mean(b[i].minuend).Ok? && Mean(b[i].subtrahend).Ok? {
      assert b[i] in multiset(a);
      var j :| 0 <= j < |a| && a[j] == b[i];
    }
  }

  predicate SameObservations(a: CaseObservations, b: CaseObservations) {
    a.caseId == b.caseId && multiset(a.minuend) == multiset(b.minuend) && multiset(a.subtrahend) == multiset(b.subtrahend)
  }

  /** Reordering the observations inside the cases changes nothing at all. */
  lemma ObservationsPermuted(a: seq<CaseObservations>, b: seq<CaseObservations>, sqrt: real -> real)
    requires |a| == |b| && forall i :: 0 <= i < |a| ==> SameObservations(a[i], b[i])
    ensures BuildPairedEstimate(a, sqrt) == BuildPairedEstimate(b, sqrt)
  {
    hide SquaredError;
    forall i | 0 <= i < |a|
      ensures DeltaOf(a[i]) == DeltaOf(b[i])
      ensures Mean(a[i].minuend) == Mean(b[i].minuend) && Mean(a[i].subtrahend) == Mean(b[i].subtrahend)
    {
      MeanPermuted(a[i].minuend, b[i].minuend);
      MeanPermuted(a[i].subtrahend, b[i].subtrahend);
      PermutationSize(a[i].minuend, b[i].minuend);
      PermutationSize(a[i].subtrahend, b[i].subtrahend);
    }
    assert DeltasOf(a) == DeltasOf(b);
  }

  function Swap(each: CaseObservations): CaseObservations {
    CaseObservations(each.caseId, each.subtrahend, each.minuend)
  }

  function Negate(x: real): real {
    -x
  }

  lemma {:induction false} TotalNegated(values: seq<real>)
    ensures Total(Map(values, Negate)) == -Total(values)
  {
    if values != [] {
      TotalNegated(values[1..]);
      assert Map(values, Negate)[1..] == Map(values[1..], Negate);
    }
  }

  lemma QuotientNegated(a: real, n: real)
    requires n != 0.0
    ensures (-a) / n == -(a / n)
  {
  }

  lemma MeanNegated(values: seq<real>)
    requires values != []
    ensures MeanValue(Map(values, Negate)) == -MeanValue(values)
  {
    TotalNegated(values);
    MeanIsTotalOverCount(values);
    MeanIsTotalOverCount(Map(values, Negate));
    QuotientNegated(Total(values), |values| as real);
  }

  lemma SquaresOfNegated(values: seq<real>, center: real)
    ensures SquaredDifferences(Map(values, Negate), -center) == SquaredDifferences(values, center)
  {
    hide Square;
    forall i | 0 <= i < |values|
      ensures SquaredDifferences(Map(values, Negate), -center)[i] == SquaredDifferences(values, center)[i]
    {
      SquareNonNegative(values[i] - center);
      assert -values[i] - -center == -(values[i] - center);
    }
  }

  /** Swapping the arms negates every delta and the mean delta, and keeps the error. */
  lemma SwapNegates(cases: seq<CaseObservations>, sqrt: real -> real)
    ensures BuildPairedEstimate(Map(cases, Swap), sqrt).Ok? <==> BuildPairedEstimate(cases, sqrt).Ok?
    ensures BuildPairedEstimate(cases, sqrt).Ok? ==>
      var one, other := BuildPairedEstimate(cases, sqrt).value, BuildPairedEstimate(Map(cases, Swap), sqrt).value;
      && other.meanDelta == -one.meanDelta && other.standardError == one.standardError
      && |other.caseDeltas| == |one.caseDeltas|
      && forall i :: 0 <= i < |one.caseDeltas| ==>
           other.caseDeltas[i] == CaseDelta(one.caseDeltas[i].caseId, -one.caseDeltas[i].value)
  {
    hide SquaredDifferences, Mean, MeanValue, SpreadOfMean;
    var swapped := Map(cases, Swap);
    assert forall i :: 0 <= i < |cases| ==> swapped[i] == Swap(cases[i]);
    assert Observed(swapped) <==> Observed(cases);
    if |cases| >= 2 {
      var values := ValuesOf(DeltasOf(cases));
      forall i | 0 <= i < |cases| ensures ValuesOf(DeltasOf(swapped))[i] == -values[i] {
        assert DeltaOf(swapped[i]).value == -DeltaOf(cases[i]).value;
      }
      assert ValuesOf(DeltasOf(swapped)) == Map(values, Negate);
      MeanNegated(values);
      SquaresOfNegated(values, MeanValue(values));
    }
  }

  lemma {:induction false} TotalAdds(a: seq<real>, b: seq<real>, c: seq<real>)
    requires |a| == |b| == |c|
    requires forall i :: 0 <= i < |a| ==> c[i] == a[i] + b[i]
    ensures Total(c) == Total(a) + Total(b)
  {
    if a != [] {
      TotalAdds(a[1..], b[1..], c[1..]);
    }
  }

  lemma QuotientAdds(a: real, b: real, n: real)
    requires n != 0.0
    ensures a / n + b / n == (a + b) / n
  {
  }

  function ArmPair(ids: seq<string>, minuend: seq<seq<real>>, subtrahend: seq<seq<real>>): seq<CaseObservations>
    requires |ids| == |minuend| == |subtrahend|
  {
    seq(|ids|, i requires 0 <= i < |ids| => CaseObservations(ids[i], minuend[i], subtrahend[i]))
  }

  /** The contrasts agree: candidate minus baseline and baseline minus control add up to candidate minus control. */
  lemma ContrastsAddUp(
    ids: seq<string>, candidate: seq<seq<real>>, baseline: seq<seq<real>>, control: seq<seq<real>>, sqrt: real -> real)
    requires |ids| == |candidate| == |baseline| == |control|
    ensures var cb := BuildPairedEstimate(ArmPair(ids, candidate, baseline), sqrt);
      var bc := BuildPairedEstimate(ArmPair(ids, baseline, control), sqrt);
      var cc := BuildPairedEstimate(ArmPair(ids, candidate, control), sqrt);
      cb.Ok? && bc.Ok? ==> cc.Ok? && cb.value.meanDelta + bc.value.meanDelta == cc.value.meanDelta
  {
    hide SquaredError, Mean;
    var first := ArmPair(ids, candidate, baseline);
    var second := ArmPair(ids, baseline, control);
    var both := ArmPair(ids, candidate, control);
    if |ids| >= 2 && Observed(first) && Observed(second) {
      forall i | 0 <= i < |ids| ensures Mean(candidate[i]).Ok? && Mean(control[i]).Ok? {
        assert first[i].minuend == candidate[i] && second[i].subtrahend == control[i];
      }
      var a, b, c := ValuesOf(DeltasOf(first)), ValuesOf(DeltasOf(second)), ValuesOf(DeltasOf(both));
      forall i | 0 <= i < |ids| ensures c[i] == a[i] + b[i] {
        assert DeltaOf(both[i]).value == DeltaOf(first[i]).value + DeltaOf(second[i]).value;
      }
      TotalAdds(a, b, c);
      MeanIsTotalOverCount(a);
      MeanIsTotalOverCount(b);
      MeanIsTotalOverCount(c);
      QuotientAdds(Total(a), Total(b), |ids| as real);
    }
  }
}
