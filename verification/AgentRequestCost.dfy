/** One agent's attempt requests: what each cost and which skill window it fell in. */
module AgentRequestCost {
  import opened Wrappers
  import opened Collections
  import opened Counts
  import opened Transcripts
  import opened AgentTally
  import opened SkillWindows
  import opened ParentLinks

  /** The first line of the request a row belongs to. */
  datatype RequestLocator = RequestLocator(firstLineById: map<string, int>, requestIdByLine: map<int, Option<string>>) {
    function Locate(line: int): Option<int> {
      if line !in requestIdByLine || requestIdByLine[line].None? then Some(line)
      else
        var id := requestIdByLine[line].value;
        if id in firstLineById then Some(firstLineById[id]) else None
    }
  }

  datatype UnreadableLine = UnreadableLine(reason: string, window: Place)

  /** Where each request went. `requestLines` are the keys of `windowByRequest` in order. */
  datatype Allocation = Allocation(
    requestLines: seq<int>,
    windowByRequest: map<int, Place>,
    windows: seq<SkillWindow>,
    requestOf: RequestLocator,
    costs: map<int, RequestCost>,
    attemptEntries: seq<RequestEntry>,
    models: set<Option<string>>,
    unreadable: seq<UnreadableLine>)

  datatype Participant = Participant(
    owner: Owner,
    series: Series,
    lines: seq<TranscriptLine>,
    attemptStart: int)

  /** What the allocation is given: prices, the wording for an unreadable line, and the Skill calls of a transcript. */
  datatype Readers = Readers(
    price: RequestEntry -> RequestCost,
    unreadableReason: (Owner, int) -> string,
    skillCalls: (seq<TranscriptLine>, RequestLocator) -> map<string, SkillCall>)

  ghost predicate FirstLine(entries: seq<RequestEntry>, id: string, line: int) {
    exists i :: 0 <= i < |entries| && entries[i].requestId == Some(id) && entries[i].line == line
      && forall j :: 0 <= j < i ==> entries[j].requestId != Some(id)
  }

  method BuildRequestLocator(series: Series, lines: seq<TranscriptLine>) returns (locator: RequestLocator)
    ensures locator == LocatorOf(series, lines)
    ensures forall id :: id in locator.firstLineById ==> FirstLine(series.entries, id, locator.firstLineById[id])
    ensures forall i :: 0 <= i < |series.entries| && series.entries[i].requestId.Some? ==>
      series.entries[i].requestId.value in locator.firstLineById
  {
    var entries := series.entries;
    var firstLineById: map<string, int> := map[];
    for i := 0 to |entries|
      invariant firstLineById == FirstLines(entries[..i])
      invariant forall id :: id in firstLineById ==> FirstLine(entries, id, firstLineById[id])
      invariant forall j :: 0 <= j < i && entries[j].requestId.Some? ==> entries[j].requestId.value in firstLineById
    {
      assert entries[..i + 1][..i] == entries[..i];
      if entries[i].requestId.Some? && entries[i].requestId.value !in firstLineById {
        firstLineById := firstLineById[entries[i].requestId.value := entries[i].line];
      }
    }
    assert entries[..|entries|] == entries;
    locator := RequestLocator(firstLineById, RequestIds(lines));
  }

  function FirstLines(entries: seq<RequestEntry>): map<string, int> {
    if entries == [] then map[]
    else
      var before := FirstLines(entries[..|entries| - 1]);
      var last := entries[|entries| - 1];
      if last.requestId.Some? && last.requestId.value !in before then before[last.requestId.value := last.line]
      else before
  }

  function RequestIds(lines: seq<TranscriptLine>): map<int, Option<string>> {
    if lines == [] then map[]
    else
      var last := lines[|lines| - 1];
      RequestIds(lines[..|lines| - 1])[last.line := last.requestId]
  }

  function LocatorOf(series: Series, lines: seq<TranscriptLine>): RequestLocator {
    RequestLocator(FirstLines(series.entries), RequestIds(lines))
  }

  function AttemptEntries(entries: seq<RequestEntry>): seq<RequestEntry> {
    if entries == [] then []
    else (if entries[0].region == Attempt then [entries[0]] else []) + AttemptEntries(entries[1..])
  }

  predicate Spent(entry: RequestEntry) {
    !entry.usage.CompleteUsage? || entry.usage.totalInputTokens + entry.usage.outputTokens > 0
  }

  function SpentModels(entries: seq<RequestEntry>): set<Option<string>> {
    set entry | entry in entries && Spent(entry) :: entry.model
  }

  /** The models named by entries that spent, `undefined` left out. */
  function KnownModels(entries: seq<RequestEntry>): seq<string> {
    if entries == [] then []
    else
      (if Spent(entries[0]) && entries[0].model.Some? then [entries[0].model.value] else []) + KnownModels(entries[1..])
  }

  lemma {:induction false} KnownModelsListed(entries: seq<RequestEntry>)
    ensures forall m :: m in KnownModels(entries) <==> Some(m) in SpentModels(entries)
  {
    if entries != [] {
      KnownModelsListed(entries[1..]);
      forall m ensures Some(m) in SpentModels(entries) <==>
        (Spent(entries[0]) && entries[0].model == Some(m)) || Some(m) in SpentModels(entries[1..])
      {
        if e :| e in entries && Spent(e) && e.model == Some(m) {
          assert e == entries[0] || e in entries[1..];
        }
      }
    }
  }

  function EntryLines(entries: seq<RequestEntry>): seq<int> {
    seq(|entries|, i requires 0 <= i < |entries| => entries[i].line)
  }

  /** The attempt entries' costs by line; a later entry of the same line replaces an earlier one. */
  function CostsOf(entries: seq<RequestEntry>, price: RequestEntry -> RequestCost): map<int, RequestCost> {
    if entries == [] then map[]
    else
      var last := entries[|entries| - 1];
      CostsOf(entries[..|entries| - 1], price)[last.line := price(last)]
  }

  function UnreadableLines(rows: seq<UnreadableRow>, owner: Owner, windows: seq<SkillWindow>, readers: Readers)
    : seq<UnreadableLine>
  {
    if rows == [] then []
    else
      (if rows[0].region == Attempt
       then [UnreadableLine(readers.unreadableReason(owner, rows[0].line), WindowAt(windows, rows[0].line))] else [])
      + UnreadableLines(rows[1..], owner, windows, readers)
  }

  ghost function Allocate(participant: Participant, readers: Readers): Allocation {
    var requestOf := LocatorOf(participant.series, participant.lines);
    var windows := WindowsOf(
      participant.lines, participant.attemptStart, readers.skillCalls(participant.lines, requestOf));
    var entries := AttemptEntries(participant.series.entries);
    var costs := CostsOf(entries, readers.price);
    Allocation(
      Distinct(EntryLines(entries)),
      map line | line in costs :: WindowAt(windows, line),
      windows,
      requestOf,
      costs,
      entries,
      SpentModels(entries),
      UnreadableLines(participant.series.unreadableLines, participant.owner, windows, readers))
  }

  ghost predicate WellFormed(a: Allocation) {
    && NoRepeats(a.requestLines)
    && a.requestLines == Distinct(EntryLines(a.attemptEntries))
    && Elements(a.requestLines) == a.windowByRequest.Keys == a.costs.Keys
    && (forall line :: line in a.windowByRequest ==> a.windowByRequest[line] in AllWindows(a))
    && (forall each :: each in a.unreadable ==> each.window in AllWindows(a))
    && (forall i :: 0 <= i < |a.windows| ==> a.windows[i].invocations != [])
    && a.models == SpentModels(a.attemptEntries)
  }

  /** Every attempt entry has a cost, under its own line, and with distinct lines it is its own price. */
  lemma {:induction false} CostsByLine(entries: seq<RequestEntry>, price: RequestEntry -> RequestCost)
    ensures CostsOf(entries, price).Keys == Elements(EntryLines(entries))
    ensures forall i :: 0 <= i < |entries| ==> entries[i].line in CostsOf(entries, price)
    ensures NoRepeats(EntryLines(entries)) ==>
      forall i :: 0 <= i < |entries| ==> CostsOf(entries, price)[entries[i].line] == price(entries[i])
  {
    var lines := EntryLines(entries);
    if entries != [] {
      var n := |entries| - 1;
      var front := entries[..n];
      CostsByLine(front, price);
      assert lines == EntryLines(front) + [entries[n].line];
      forall i | 0 <= i < |entries| ensures entries[i].line in CostsOf(entries, price) {
        assert i < n ==> front[i] == entries[i];
      }
      if NoRepeats(lines) {
        assert NoRepeats(EntryLines(front)) by {
          assert EntryLines(front) == lines[..n];
        }
        forall i | 0 <= i < |entries| ensures CostsOf(entries, price)[entries[i].line] == price(entries[i]) {
          assert i < n ==> front[i] == entries[i] && lines[i] != lines[n];
        }
      }
    }
  }

  lemma {:induction false} UnreadableInWindows(
    rows: seq<UnreadableRow>, owner: Owner, windows: seq<SkillWindow>, readers: Readers)
    ensures forall each :: each in UnreadableLines(rows, owner, windows, readers) ==>
      each.window.Inside? ==> each.window.index < |windows|
  {
    if rows != [] {
      UnreadableInWindows(rows[1..], owner, windows, readers);
      WindowAtFindsFirst(windows, rows[0].line, 0);
    }
  }

  /** What every allocation satisfies, whatever the transcript and the prices. */
  lemma AllocateWellFormed(participant: Participant, readers: Readers)
    requires LinesAscend(participant.lines)
    ensures WellFormed(Allocate(participant, readers))
  {
    var a := Allocate(participant, readers);
    WindowsInOrder(
      participant.lines, participant.attemptStart, readers.skillCalls(participant.lines, a.requestOf));
    CostsByLine(a.attemptEntries, readers.price);
    DistinctElements(EntryLines(a.attemptEntries));
    UnreadableInWindows(participant.series.unreadableLines, participant.owner, a.windows, readers);
    forall line | line in a.windowByRequest ensures a.windowByRequest[line] in AllWindows(a) {
      WindowAtFindsFirst(a.windows, line, 0);
    }
  }

  function AllWindows(a: Allocation): set<Place> {
    PlacesUpTo(|a.windows|)
  }

  function PlacesUpTo(n: nat): (places: set<Place>)
    ensures forall w :: w in places <==> w.Outside? || w.index < n
  {
    if n == 0 then
      assert forall w: Place :: w.Inside? ==> 0 <= w.index;
      {Outside}
    else PlacesUpTo(n - 1) + {Inside(n - 1)}
  }

  ghost function WindowSet(indices: set<nat>): set<Place> {
    set i | i in indices :: Inside(i)
  }

  ghost function SharedWindows(a: Allocation): set<Place> {
    WindowSet(set i: nat | i < |a.windows| && |a.windows[i].invocations| > 1)
  }

  function LinesIn(a: Allocation, keep: set<Place>): set<int> {
    set line | line in a.windowByRequest && a.windowByRequest[line] in keep
  }

  function LinesWhere(a: Allocation, keep: set<Place>): seq<int> {
    Where(a.requestLines, LinesIn(a, keep))
  }

  function ReasonsWhere(unreadable: seq<UnreadableLine>, keep: set<Place>): seq<string> {
    if unreadable == [] then []
    else (if unreadable[0].window in keep then [unreadable[0].reason] else []) + ReasonsWhere(unreadable[1..], keep)
  }

  /** The requests of the windows kept, and the unreadable lines inside them. */
  function TallyWhere(a: Allocation, keep: set<Place>): Tally {
    Summed([TallyOf(LinesWhere(a, keep), a.costs)], ReasonsWhere(a.unreadable, keep))
  }

  function OwnTally(a: Allocation): Tally {
    TallyWhere(a, AllWindows(a))
  }

  lemma {:induction false} ReasonsWhereElements(unreadable: seq<UnreadableLine>, keep: set<Place>)
    ensures Elements(ReasonsWhere(unreadable, keep))
         == set each | each in unreadable && each.window in keep :: each.reason
  {
    if unreadable != [] {
      ReasonsWhereElements(unreadable[1..], keep);
      var first := if unreadable[0].window in keep then [unreadable[0].reason] else [];
      assert Elements(first + ReasonsWhere(unreadable[1..], keep))
          == Elements(first) + Elements(ReasonsWhere(unreadable[1..], keep));
      forall reason ensures reason in Elements(ReasonsWhere(unreadable, keep)) <==>
        reason in (set each | each in unreadable && each.window in keep :: each.reason)
      {
        if each :| each in unreadable && each.window in keep && each.reason == reason {
          assert each == unreadable[0] || each in unreadable[1..];
        }
      }
    }
  }

  ghost function ReasonSet(a: Allocation, keep: set<Place>): Count {
    ReasonOnly(set each | each in a.unreadable && each.window in keep :: each.reason)
  }

  lemma SummedOnePart(part: Tally, missing: seq<string>)
    ensures Summed([part], missing).Value() == ReasonOnly(Elements(missing)).Plus(part.Value())
  {
    SummedAddsUp([part], missing);
    assert Sum([part], TallyValue()) == part.Value().Plus(Sum([], TallyValue()));
    PlusZero(part.Value());
  }

  lemma TallyWhereCounts(a: Allocation, keep: set<Place>)
    ensures TallyWhere(a, keep).Value()
         == ReasonSet(a, keep).Plus(SumWhere(a.requestLines, LinesIn(a, keep), LineCount(a.costs)))
  {
    ReasonsWhereElements(a.unreadable, keep);
    hide Summed, TallyOf, LinesIn, Where, ReasonsWhere, LineCount, Sum;
    TallyCountsItsLines(LinesWhere(a, keep), a.costs);
    SummedOnePart(TallyOf(LinesWhere(a, keep), a.costs), ReasonsWhere(a.unreadable, keep));
  }

  lemma ReasonSetUnion(a: Allocation, k1: set<Place>, k2: set<Place>)
    ensures ReasonSet(a, k1 + k2) == ReasonSet(a, k1).Plus(ReasonSet(a, k2))
  {
    assert ReasonSet(a, k1 + k2).reasons == ReasonSet(a, k1).reasons + ReasonSet(a, k2).reasons;
  }

  lemma LinesInUnion(a: Allocation, k1: set<Place>, k2: set<Place>)
    requires k1 !! k2
    ensures LinesIn(a, k1 + k2) == LinesIn(a, k1) + LinesIn(a, k2) && LinesIn(a, k1) !! LinesIn(a, k2)
  {
  }

  lemma TallyWhereUnion(a: Allocation, k1: set<Place>, k2: set<Place>)
    requires k1 !! k2
    ensures TallyWhere(a, k1 + k2).Value() == TallyWhere(a, k1).Value().Plus(TallyWhere(a, k2).Value())
  {
    hide *;
    TallyWhereCounts(a, k1);
    TallyWhereCounts(a, k2);
    TallyWhereCounts(a, k1 + k2);
    LinesInUnion(a, k1, k2);
    SumWhereUnion(a.requestLines, LinesIn(a, k1), LinesIn(a, k2), LineCount(a.costs));
    ReasonSetUnion(a, k1, k2);
    PlusExchanges(ReasonSet(a, k1), ReasonSet(a, k2), SumWhere(a.requestLines, LinesIn(a, k1), LineCount(a.costs)),
                  SumWhere(a.requestLines, LinesIn(a, k2), LineCount(a.costs)));
  }

  lemma AllLinesIn(a: Allocation)
    requires WellFormed(a)
    ensures LinesIn(a, AllWindows(a)) == Elements(a.requestLines)
  {
    assert a.windowByRequest.Keys == Elements(a.requestLines);
    forall line ensures line in LinesIn(a, AllWindows(a)) <==> line in a.windowByRequest.Keys {
    }
  }

  /** An agent's own count is every one of its requests, with the reason of every unreadable line. */
  lemma OwnTallyCountsEverything(a: Allocation)
    requires WellFormed(a)
    ensures OwnTally(a).Value()
         == ReasonOnly(set each | each in a.unreadable :: each.reason).Plus(Sum(a.requestLines, LineCount(a.costs)))
  {
    TallyWhereCounts(a, AllWindows(a));
    AllLinesIn(a);
    WhereAll(a.requestLines, LinesIn(a, AllWindows(a)));
    assert ReasonSet(a, AllWindows(a)).reasons == set each | each in a.unreadable :: each.reason;
  }

  ghost function WindowCount(a: Allocation): nat -> Count {
    (i: nat) => TallyWhere(a, {Inside(i)}).Value()
  }

  lemma NothingKept(a: Allocation)
    ensures TallyWhere(a, {}).Value() == ZERO
  {
    var none: set<Place> := {};
    TallyWhereCounts(a, none);
    assert LinesIn(a, none) == {};
    WhereNone(a.requestLines, {});
    assert (set each | each in a.unreadable && each.window in none :: each.reason) == {};
    PlusZero(ZERO);
  }

  lemma WindowSetSplits(indices: seq<nat>)
    requires NoRepeats(indices) && indices != []
    ensures WindowSet(Elements(indices)) == {Inside(indices[0])} + WindowSet(Elements(indices[1..]))
    ensures {Inside(indices[0])} !! WindowSet(Elements(indices[1..]))
  {
    assert Elements(indices) == {indices[0]} + Elements(indices[1..]);
    assert indices[0] !in Elements(indices[1..]);
  }

  lemma {:induction false} WindowsAddUp(a: Allocation, indices: seq<nat>)
    requires NoRepeats(indices)
    ensures Sum(indices, WindowCount(a)) == TallyWhere(a, WindowSet(Elements(indices))).Value()
  {
    if indices == [] {
      assert WindowSet(Elements(indices)) == {};
      NothingKept(a);
    } else {
      WindowsAddUp(a, indices[1..]);
      WindowSetSplits(indices);
      TallyWhereUnion(a, {Inside(indices[0])}, WindowSet(Elements(indices[1..])));
    }
  }

  /** The windows of one skill, in order. */
  ghost function SingleWindows(windows: seq<SkillWindow>): seq<nat> {
    if windows == [] then []
    else
      var n := |windows| - 1;
      SingleWindows(windows[..n]) + (if |windows[n].invocations| == 1 then [n] else [])
  }

  lemma {:induction false} SingleWindowsListed(windows: seq<SkillWindow>)
    ensures NoRepeats(SingleWindows(windows))
    ensures forall j, k :: 0 <= j < k < |SingleWindows(windows)| ==> SingleWindows(windows)[j] < SingleWindows(windows)[k]
    ensures forall i: nat :: i in SingleWindows(windows) <==> i < |windows| && |windows[i].invocations| == 1
  {
    if windows != [] {
      var n := |windows| - 1;
      SingleWindowsListed(windows[..n]);
      var front := SingleWindows(windows[..n]);
      forall k | 0 <= k < |front| ensures front[k] < n {
        var i := front[k];
        assert i in front;
      }
      assert forall i: nat :: i < n ==> windows[..n][i] == windows[i];
    }
  }

  lemma PlacesCovered(a: Allocation)
    requires forall i :: 0 <= i < |a.windows| ==> a.windows[i].invocations != []
    ensures var single := WindowSet(Elements(SingleWindows(a.windows)));
      && single !! SharedWindows(a)
      && single + SharedWindows(a) !! {Outside}
      && single + SharedWindows(a) + {Outside} == AllWindows(a)
  {
    var single := WindowSet(Elements(SingleWindows(a.windows)));
    SingleWindowsListed(a.windows);
    forall w ensures w in single + SharedWindows(a) + {Outside} <==> w in AllWindows(a) {
      if w.Inside? && w.index < |a.windows| {
        assert a.windows[w.index].invocations != [];
        assert w.index in Elements(SingleWindows(a.windows)) || |a.windows[w.index].invocations| > 1;
      }
    }
  }

  /**
   * An agent's own count is the sum of its single-skill windows', its shared windows' and the
   * remainder outside every window, reasons of unreadable lines included.
   */
  lemma WindowsPartitionOwn(a: Allocation)
    requires WellFormed(a)
    ensures Sum(SingleWindows(a.windows), WindowCount(a))
        .Plus(TallyWhere(a, SharedWindows(a)).Value())
        .Plus(TallyWhere(a, {Outside}).Value())
      == OwnTally(a).Value()
  {
    SingleWindowsListed(a.windows);
    WindowsAddUp(a, SingleWindows(a.windows));
    PlacesCovered(a);
    var single := WindowSet(Elements(SingleWindows(a.windows)));
    TallyWhereUnion(a, single, SharedWindows(a));
    TallyWhereUnion(a, single + SharedWindows(a), {Outside});
  }

  ghost function ConcatLines(a: Allocation, indices: seq<nat>): seq<int> {
    if indices == [] then [] else LinesWhere(a, {Inside(indices[0])}) + ConcatLines(a, indices[1..])
  }

  lemma LinesWhereUnion(a: Allocation, k1: set<Place>, k2: set<Place>)
    requires k1 !! k2
    ensures multiset(LinesWhere(a, k1 + k2)) == multiset(LinesWhere(a, k1)) + multiset(LinesWhere(a, k2))
  {
    assert LinesIn(a, k1 + k2) == LinesIn(a, k1) + LinesIn(a, k2);
    WhereUnionMultiset(a.requestLines, LinesIn(a, k1), LinesIn(a, k2));
  }

  lemma EveryLineKept(a: Allocation)
    requires WellFormed(a)
    ensures LinesWhere(a, AllWindows(a)) == a.requestLines
  {
    AllLinesIn(a);
    WhereAll(a.requestLines, LinesIn(a, AllWindows(a)));
  }

  lemma {:induction false} ConcatLinesMultiset(a: Allocation, indices: seq<nat>)
    requires NoRepeats(indices)
    ensures multiset(ConcatLines(a, indices)) == multiset(LinesWhere(a, WindowSet(Elements(indices))))
  {
    if indices == [] {
      assert LinesIn(a, WindowSet(Elements(indices))) == {};
      WhereNone(a.requestLines, {});
    } else {
      ConcatLinesMultiset(a, indices[1..]);
      WindowSetSplits(indices);
      LinesWhereUnion(a, {Inside(indices[0])}, WindowSet(Elements(indices[1..])));
    }
  }

  /** Every request line is listed exactly once: under one skill's window, as shared, or as unattributed. */
  lemma EachRequestListedOnce(a: Allocation)
    requires WellFormed(a)
    ensures multiset(
        ConcatLines(a, SingleWindows(a.windows)) + LinesWhere(a, SharedWindows(a)) + LinesWhere(a, {Outside}))
      == multiset(a.requestLines)
  {
    var singles := SingleWindows(a.windows);
    SingleWindowsListed(a.windows);
    ConcatLinesMultiset(a, singles);
    PlacesCovered(a);
    var single, shared := WindowSet(Elements(singles)), SharedWindows(a);
    LinesWhereUnion(a, single, shared);
    LinesWhereUnion(a, single + shared, {Outside});
    EveryLineKept(a);
  }
}
