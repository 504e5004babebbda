/** A running count behind a cost reading, and the sums of such counts. */
module AgentTally {
  import opened Collections
  import opened Counts
  import opened Transcripts

  datatype Tally = Tally(costUsd: real, priced: nat, requests: nat, reasons: seq<string>) {
    ghost function Value(): Count {
      Count(costUsd, priced, requests, Elements(reasons))
    }
  }

  datatype Reading =
    | Complete(costUsd: real)
    | Incomplete(costUsd: real, pricedRequestCount: nat, reasons: seq<string>, requestCount: nat)

  const NOTHING: Tally := Tally(0.0, 0, 0, [])

  function AddLine(t: Tally, line: int, costs: map<int, RequestCost>): Tally {
    var counted := t.(requests := t.requests + 1);
    if line !in costs then counted
    else
      match costs[line]
      case Priced(cost) => counted.(costUsd := t.costUsd + cost, priced := t.priced + 1)
      case Unpriced(reason) => if reason in t.reasons then counted else counted.(reasons := t.reasons + [reason])
  }

  function TallyOf(lines: seq<int>, costs: map<int, RequestCost>): Tally {
    if lines == [] then NOTHING
    else AddLine(TallyOf(lines[..|lines| - 1], costs), lines[|lines| - 1], costs)
  }

  method TallyLines(lines: seq<int>, costs: map<int, RequestCost>) returns (t: Tally)
    ensures t == TallyOf(lines, costs)
  {
    var costUsd, priced: nat, reasons := 0.0, 0, [];
    for i := 0 to |lines|
      invariant Tally(costUsd, priced, i, reasons) == TallyOf(lines[..i], costs)
    {
      assert lines[..i + 1][..i] == lines[..i];
      if lines[i] in costs {
        match costs[lines[i]]
        case Priced(cost) =>
          costUsd := costUsd + cost;
          priced := priced + 1;
        case Unpriced(reason) =>
          if reason !in reasons {
            reasons := reasons + [reason];
          }
      }
    }
    assert lines[..|lines|] == lines;
    t := Tally(costUsd, priced, |lines|, reasons);
  }

  /** What one request adds to any tally it belongs to. */
  ghost function LineCount(costs: map<int, RequestCost>): int -> Count {
    line =>
      if line !in costs then Count(0.0, 0, 1, {})
      else
        match costs[line]
        case Priced(cost) => Count(cost, 1, 1, {})
        case Unpriced(reason) => Count(0.0, 0, 1, {reason})
  }

  lemma {:induction false} TallyCountsItsLines(lines: seq<int>, costs: map<int, RequestCost>)
    ensures TallyOf(lines, costs).Value() == Sum(lines, LineCount(costs))
  {
    if lines != [] {
      var n := |lines| - 1;
      var front, last := lines[..n], lines[n];
      TallyCountsItsLines(front, costs);
      assert lines == front + [last];
      SumSnoc(front, last, LineCount(costs));
      AddLineCounts(TallyOf(front, costs), last, costs);
    }
  }

  lemma AddLineCounts(t: Tally, line: int, costs: map<int, RequestCost>)
    ensures AddLine(t, line, costs).Value() == t.Value().Plus(LineCount(costs)(line))
  {
    assert Elements(t.reasons) + {} == Elements(t.reasons);
    if line in costs && costs[line].Unpriced? {
      var reason := costs[line].reason;
      assert Elements(t.reasons + [reason]) == Elements(t.reasons) + {reason};
      if reason in t.reasons {
        assert Elements(t.reasons) + {reason} == Elements(t.reasons);
      }
    }
  }

  /** A reading with no reason against it priced every request it counts. */
  lemma {:induction false} CompleteMeansAllPriced(lines: seq<int>, costs: map<int, RequestCost>)
    requires forall line :: line in lines ==> line in costs
    ensures var t := TallyOf(lines, costs);
      t.priced <= t.requests == |lines| && (t.reasons == [] <==> t.priced == t.requests)
  {
    if lines != [] {
      CompleteMeansAllPriced(lines[..|lines| - 1], costs);
      assert lines[|lines| - 1] in lines;
    }
  }

  ghost function TallyValue(): Tally -> Count {
    (t: Tally) => t.Value()
  }

  function TotalCost(parts: seq<Tally>): real {
    if parts == [] then 0.0 else parts[0].costUsd + TotalCost(parts[1..])
  }

  function TotalPriced(parts: seq<Tally>): nat {
    if parts == [] then 0 else parts[0].priced + TotalPriced(parts[1..])
  }

  function TotalRequests(parts: seq<Tally>): nat {
    if parts == [] then 0 else parts[0].requests + TotalRequests(parts[1..])
  }

  function AllReasons(parts: seq<Tally>): seq<string> {
    if parts == [] then [] else parts[0].reasons + AllReasons(parts[1..])
  }

  /** A sum of tallies; a part with no tally at all gives its reason in `missing`. */
  function Summed(parts: seq<Tally>, missing: seq<string>): Tally {
    Tally(TotalCost(parts), TotalPriced(parts), TotalRequests(parts), Distinct(missing + AllReasons(parts)))
  }

  lemma {:induction false} PartsAddUp(parts: seq<Tally>)
    ensures Count(TotalCost(parts), TotalPriced(parts), TotalRequests(parts), Elements(AllReasons(parts)))
         == Sum(parts, TallyValue())
  {
    if parts != [] {
      PartsAddUp(parts[1..]);
      assert Elements(parts[0].reasons + AllReasons(parts[1..]))
          == Elements(parts[0].reasons) + Elements(AllReasons(parts[1..]));
    }
  }

  lemma SummedAddsUp(parts: seq<Tally>, missing: seq<string>)
    ensures Summed(parts, missing).Value() == ReasonOnly(Elements(missing)).Plus(Sum(parts, TallyValue()))
  {
    PartsAddUp(parts);
    DistinctElements(missing + AllReasons(parts));
    assert Elements(missing + AllReasons(parts)) == Elements(missing) + Elements(AllReasons(parts));
  }

  function ReadingOf(counted: Tally): Reading {
    if |counted.reasons| == 0 then Complete(counted.costUsd)
    else Incomplete(counted.costUsd, counted.priced, counted.reasons, counted.requests)
  }

  /** A reading shows a count: its cost, and when it is incomplete its requests and reasons too. */
  ghost predicate Reads(reading: Reading, count: Count) {
    && reading.costUsd == count.cost
    && (reading.Complete? <==> count.reasons == {})
    && (reading.Incomplete? ==>
          && reading.pricedRequestCount == count.priced && reading.requestCount == count.requests
          && Elements(reading.reasons) == count.reasons)
  }

  lemma ReadingReads(counted: Tally)
    ensures Reads(ReadingOf(counted), counted.Value())
  {
    if counted.reasons != [] {
      assert counted.reasons[0] in Elements(counted.reasons);
    }
  }

  function UnavailableAgentReason(agentId: string): string {
    "no transcript was kept for sub-agent " + agentId
  }
}
