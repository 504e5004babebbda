/** What the parts of the allocation, as a caller receives it, add up to. */
module ReturnedAllocation {
  import opened Wrappers
  import opened Collections
  import opened Counts
  import opened ParentLinks
  import opened LaunchLinks
  import opened Transcripts
  import opened AgentTree
  import opened AgentTally
  import opened SkillWindows
  import opened AgentRequestCost
  import opened AgentDescendants
  import opened AgentForest
  import opened AgentProvider
  import opened AgentCost

  /** The rows of the root and of the sub-agents. */
  function Rows(returned: CostAllocation): seq<AgentCostRow>
    requires returned.CostAllocation?
  {
    [returned.root] + returned.agents
  }

  /** One row for each owner, in order. */
  ghost predicate RowsMatch(rows: seq<AgentCostRow>, ledger: Ledger, totals: map<Owner, Tally>) {
    && |rows| == |ledger.world.order|
    && forall i :: 0 <= i < |rows| ==>
         var o := ledger.world.order[i];
         o in ledger.world.allocations && o in totals && rows[i] == RowOf(ledger, totals, o)
  }

  /** What the readings of the returned allocation are readings of. */
  ghost predicate Returns(returned: CostAllocation, ledger: Ledger, missing: seq<string>)
    requires ledger.Valid()
  {
    && returned.CostAllocation?
    && RowsMatch(Rows(returned), ledger, TotalsOf(ledger.world))
    && returned.calculated == ReadingOf(CalculatedTally(ledger.world, missing))
    && returned.byModel == ModelRows(ledger, missing)
  }

  lemma LedgerIsValid(input: TreeInput, readers: Readers, usage: ModelUsage)
    requires RowsAscend(input) && usage.Valid()
    ensures LedgerOf(input, readers, usage).Valid()
    ensures LedgerOf(input, readers, usage).world == WorldOf(input, readers)
  {
    WorldIsValid(input, readers);
    hide WorldOf, AgentTreeOf, RowsAscend;
  }

  lemma RowsOfMatch(ledger: Ledger, totals: map<Owner, Tally>)
    requires ledger.world.order != [] && forall o :: o in ledger.world.order ==> o in ledger.world.allocations && o in totals
    ensures var owners := ledger.world.order;
      assert owners[0] in owners;
      RowsMatch([RowOf(ledger, totals, owners[0])] + RowsOf(ledger, totals, owners[1..]), ledger, totals)
  {
    hide RowOf;
  }

  ghost predicate MadeOf(returned: CostAllocation, ledger: Ledger, missing: seq<string>)
    requires ledger.Valid()
  {
    OrderListsAllocations(ledger.world);
    && ledger.world.order[0] == Root
    && returned == CostAllocation(
         ReadingOf(CalculatedTally(ledger.world, missing)),
         RowOf(ledger, TotalsOf(ledger.world), Root),
         RowsOf(ledger, TotalsOf(ledger.world), ledger.world.order[1..]),
         ModelRows(ledger, missing))
  }

  lemma AllocationIsMade(input: TreeInput, readers: Readers, usage: ModelUsage)
    requires RowsAscend(input) && usage.Valid() && input.rootSeries.boundaryKnown
    requires LedgerOf(input, readers, usage).Valid()
    ensures MadeOf(AllocateCost(input, readers, usage), LedgerOf(input, readers, usage), MissingReasons(UnavailableIds(AgentsOf(input))))
  {
    ParticipantOwners(input, readers);
    hide RowsAscend, CalculatedTally, RowOf, RowsOf, ModelRows, AgentsOf, UnavailableIds, SubParticipants, OwnersOf;
    hide WorldOf, TotalsOf, MissingReasons, ModelsBeforeAttempt, UnreadableReasons;
  }

  lemma MadeReturns(returned: CostAllocation, ledger: Ledger, missing: seq<string>)
    requires ledger.Valid() && MadeOf(returned, ledger, missing)
    ensures Returns(returned, ledger, missing)
  {
    var w := ledger.world;
    OrderListsAllocations(w);
    RowsOfMatch(ledger, TotalsOf(w));
    hide CalculatedTally, RowOf, RowsOf, ModelRows, TotalsOf, RowsMatch;
  }

  lemma AllocationReturns(input: TreeInput, readers: Readers, usage: ModelUsage)
    requires RowsAscend(input) && usage.Valid() && input.rootSeries.boundaryKnown
    ensures LedgerOf(input, readers, usage).Valid()
    ensures Returns(AllocateCost(input, readers, usage), LedgerOf(input, readers, usage), MissingReasons(UnavailableIds(AgentsOf(input))))
  {
    hide *;
    LedgerIsValid(input, readers, usage);
    AllocationIsMade(input, readers, usage);
    MadeReturns(
      AllocateCost(input, readers, usage), LedgerOf(input, readers, usage), MissingReasons(UnavailableIds(AgentsOf(input))));
  }

  /** There is an allocation exactly when the attempt has a boundary. */
  lemma AvailableExactlyWhen(input: TreeInput, readers: Readers, usage: ModelUsage)
    requires RowsAscend(input) && usage.Valid() && AsRead(input)
    ensures AllocateCost(input, readers, usage).CostAllocation? <==> input.prefixLinesExcluded.Some?
  {
    assert AgentTreeOf(input).rootSeries == input.rootSeries;
    hide WorldOf, LedgerOf, CalculatedTally, RowOf, RowsOf, ModelRows, AgentsOf, UnavailableIds;
  }

  // ---- the rows against the calculated cost

  lemma RowReads(ledger: Ledger, o: Owner)
    requires ledger.Valid() && o in ledger.world.allocations
    ensures var row := RowOf(ledger, TotalsOf(ledger.world), o);
      && row.owner == o
      && Reads(row.includingDescendants.cost, TotalCount(ledger.world)(o))
      && Reads(row.own.cost, OwnCount(ledger.world)(o))
  {
    ReadingReads(OwnTally(ledger.world.allocations[o]));
    ReadingReads(Total(ledger.world, o));
    hide Total, SkillCosts, ProviderCostOf, OwnTally, TallyWhere, ReadingOf, Reads;
  }

  /** Each owner has its row, and the row reads the owner's total and its own count. */
  lemma ReturnedRowsRead(input: TreeInput, readers: Readers, usage: ModelUsage)
    requires RowsAscend(input) && usage.Valid() && input.rootSeries.boundaryKnown
    ensures var returned := AllocateCost(input, readers, usage);
      var w := WorldOf(input, readers);
      && w.Valid() && returned.CostAllocation? && |Rows(returned)| == |w.order|
      && forall i :: 0 <= i < |w.order| ==>
           var row, o := Rows(returned)[i], w.order[i];
           && row.owner == o
           && Reads(row.includingDescendants.cost, TotalCount(w)(o)) && Reads(row.own.cost, OwnCount(w)(o))
  {
    AllocationReturns(input, readers, usage);
    LedgerIsValid(input, readers, usage);
    var ledger := LedgerOf(input, readers, usage);
    var w, rows := ledger.world, Rows(AllocateCost(input, readers, usage));
    hide AllocateCost, LedgerOf, WorldOf, RowsAscend, CalculatedTally, Reads, RowOf, TotalsOf, TotalCount, OwnCount, ModelRows;
    forall i | 0 <= i < |rows|
      ensures rows[i].owner == w.order[i]
      ensures Reads(rows[i].includingDescendants.cost, TotalCount(w)(w.order[i]))
      ensures Reads(rows[i].own.cost, OwnCount(w)(w.order[i]))
    {
      RowReads(ledger, w.order[i]);
    }
  }

  /**
   * `calculated` reads the sum of what the rows of the tops read as totals, what the rows of the
   * looping agents read as their own, and a reason for each agent without a transcript.
   */
  lemma ReturnedReadingsAddUp(input: TreeInput, readers: Readers, usage: ModelUsage)
    requires RowsAscend(input) && usage.Valid() && input.rootSeries.boundaryKnown
    ensures var returned := AllocateCost(input, readers, usage);
      var w := WorldOf(input, readers);
      && w.Valid() && returned.CostAllocation?
      && Reads(returned.calculated,
           Sum(Tops(w), TotalCount(w)).Plus(Sum(Looping(w), OwnCount(w)))
             .Plus(ReasonOnly(Elements(MissingReasons(UnavailableIds(AgentsOf(input)))))))
  {
    var missing := MissingReasons(UnavailableIds(AgentsOf(input)));
    AllocationReturns(input, readers, usage);
    LedgerIsValid(input, readers, usage);
    MissingAreUnavailable(input, readers);
    var w := WorldOf(input, readers);
    hide AllocateCost, WorldOf, LedgerOf, RowsAscend, CalculatedTally, Reads, ReadingOf, TotalsOf, TotalCount, OwnCount, Tops;
    hide Looping, UnavailableIds, MissingReasons, AgentsOf, ModelRows, RowsMatch, Sum;
    CalculatedIsTheForest(w, missing);
    ReadingReads(CalculatedTally(w, missing));
  }

  function RowTotals(rows: seq<AgentCostRow>, keep: set<Owner>): real {
    if rows == [] then 0.0
    else (if rows[0].owner in keep then rows[0].includingDescendants.cost.costUsd else 0.0) + RowTotals(rows[1..], keep)
  }

  function RowOwns(rows: seq<AgentCostRow>, keep: set<Owner>): real {
    if rows == [] then 0.0
    else (if rows[0].owner in keep then rows[0].own.cost.costUsd else 0.0) + RowOwns(rows[1..], keep)
  }

  /** The rows are those of these owners, and show what the world counts for them. */
  ghost predicate ShowCosts(rows: seq<AgentCostRow>, owners: seq<Owner>, total: Owner -> Count, own: Owner -> Count) {
    && |rows| == |owners|
    && forall i :: 0 <= i < |rows| ==>
         && rows[i].owner == owners[i]
         && rows[i].includingDescendants.cost.costUsd == total(owners[i]).cost
         && rows[i].own.cost.costUsd == own(owners[i]).cost
  }

  lemma {:induction false} RowCosts(
    rows: seq<AgentCostRow>, owners: seq<Owner>, total: Owner -> Count, own: Owner -> Count, keep: set<Owner>)
    requires ShowCosts(rows, owners, total, own)
    ensures RowTotals(rows, keep) == SumWhere(owners, keep, total).cost
    ensures RowOwns(rows, keep) == SumWhere(owners, keep, own).cost
  {
    if owners != [] {
      RowCosts(rows[1..], owners[1..], total, own, keep);
      SumWhereStep(owners, keep, total);
      SumWhereStep(owners, keep, own);
    }
  }

  lemma ShowFromReads(rows: seq<AgentCostRow>, owners: seq<Owner>, total: Owner -> Count, own: Owner -> Count)
    requires |rows| == |owners|
    requires forall i :: 0 <= i < |owners| ==>
      var row, o := rows[i], owners[i];
      row.owner == o && Reads(row.includingDescendants.cost, total(o)) && Reads(row.own.cost, own(o))
    ensures ShowCosts(rows, owners, total, own)
  {
    forall i | 0 <= i < |rows|
      ensures rows[i].owner == owners[i]
      ensures rows[i].includingDescendants.cost.costUsd == total(owners[i]).cost
      ensures rows[i].own.cost.costUsd == own(owners[i]).cost
    {
      assert Reads(rows[i].includingDescendants.cost, total(owners[i])) && Reads(rows[i].own.cost, own(owners[i]));
    }
  }

  lemma ReturnedRowsShow(input: TreeInput, readers: Readers, usage: ModelUsage)
    requires RowsAscend(input) && usage.Valid() && input.rootSeries.boundaryKnown
    ensures var returned := AllocateCost(input, readers, usage);
      var w := WorldOf(input, readers);
      w.Valid() && returned.CostAllocation? && ShowCosts(Rows(returned), w.order, TotalCount(w), OwnCount(w))
  {
    hide *;
    ReturnedRowsRead(input, readers, usage);
    var rows, w := Rows(AllocateCost(input, readers, usage)), WorldOf(input, readers);
    ShowFromReads(rows, w.order, TotalCount(w), OwnCount(w));
  }

  /**
   * In the rows a caller sees, the calculated cost is the totals of the root and of the agents no
   * other total includes, and the own costs of the agents whose links loop.
   */
  lemma ReturnedCostsAddUp(input: TreeInput, readers: Readers, usage: ModelUsage)
    requires RowsAscend(input) && usage.Valid() && input.rootSeries.boundaryKnown
    ensures var returned := AllocateCost(input, readers, usage);
      var w := WorldOf(input, readers);
      returned.CostAllocation? &&
      returned.calculated.costUsd == RowTotals(Rows(returned), TopSet(w)) + RowOwns(Rows(returned), LoopSet(w))
  {
    ReturnedReadingsAddUp(input, readers, usage);
    ReturnedRowsShow(input, readers, usage);
    var returned, w := AllocateCost(input, readers, usage), WorldOf(input, readers);
    RowCosts(Rows(returned), w.order, TotalCount(w), OwnCount(w), TopSet(w));
    RowCosts(Rows(returned), w.order, TotalCount(w), OwnCount(w), LoopSet(w));
    hide AllocateCost, WorldOf, RowsAscend, TotalCount, OwnCount, RowTotals, RowOwns, TopSet, LoopSet, UnavailableIds, AgentsOf;
  }

  // ---- each row

  function SkillTotals(skills: seq<SkillCost>): real {
    if skills == [] then 0.0 else skills[0].includingDescendants.cost.costUsd + SkillTotals(skills[1..])
  }

  function SkillOwns(skills: seq<SkillCost>): real {
    if skills == [] then 0.0 else skills[0].own.cost.costUsd + SkillOwns(skills[1..])
  }

  function SkillLines(skills: seq<SkillCost>): seq<int> {
    if skills == [] then [] else skills[0].own.requestLines + SkillLines(skills[1..])
  }

  lemma FirstSkill(a: Allocation, children: seq<SubAgent>, totals: map<Owner, Tally>, windows: seq<nat>)
    requires windows != [] && forall i :: i in windows ==> i < |a.windows| && |a.windows[i].invocations| == 1
    ensures forall i :: i in windows[1..] ==> i < |a.windows| && |a.windows[i].invocations| == 1
    ensures var skills := SkillCosts(a, children, totals, windows);
      && skills != [] && skills[1..] == SkillCosts(a, children, totals, windows[1..])
      && skills[0].includingDescendants.cost.costUsd == SkillCount(a, children, totals)(windows[0]).cost
      && skills[0].own.cost.costUsd == WindowCount(a)(windows[0]).cost
      && skills[0].own.requestLines == LinesWhere(a, {Inside(windows[0])})
  {
    assert windows[0] in windows;
    assert forall i :: i in windows[1..] ==> i in windows;
    hide SkillTally, TallyWhere, LinesWhere, Launched;
    ReadingCost(SkillTally(a, children, totals, windows[0]));
    ReadingCost(TallyWhere(a, {Inside(windows[0])}));
  }

  lemma {:induction false} SkillsShow(a: Allocation, children: seq<SubAgent>, totals: map<Owner, Tally>, windows: seq<nat>)
    requires forall i :: i in windows ==> i < |a.windows| && |a.windows[i].invocations| == 1
    ensures var skills := SkillCosts(a, children, totals, windows);
      && SkillTotals(skills) == Sum(windows, SkillCount(a, children, totals)).cost
      && SkillOwns(skills) == Sum(windows, WindowCount(a)).cost
      && SkillLines(skills) == ConcatLines(a, windows)
  {
    if windows != [] {
      FirstSkill(a, children, totals, windows);
      hide SkillCosts, SkillCount, WindowCount, LinesWhere;
      SkillsShow(a, children, totals, windows[1..]);
    }
  }

  ghost function OwnersAmong(children: seq<SubAgent>): set<Owner> {
    set c | c in children :: Agent(c.agentId)
  }

  /** The owners of the children no skill's total includes. */
  ghost function Elsewhere(w: World, o: Owner): set<Owner>
    requires o in w.allocations
  {
    OwnersAmong(LaunchedElsewhere(w.allocations[o], ChildrenOf(o, w.agents)))
  }

  lemma ChildShows(w: World, o: Owner, c: SubAgent)
    requires w.Valid() && c in ChildrenOf(o, w.agents)
    ensures ChildCount(TotalsOf(w))(c).cost == TotalCount(w)(Agent(c.agentId)).cost
  {
    hide Total;
    var children := ChildrenOf(o, w.agents);
    ChildLinksUp(w, o, c);
    if Agent(c.agentId) in w.allocations {
      var j := LinkedIsChild(w, o, Agent(c.agentId));
      ChildrenListed(o, w.agents);
      var i :| 0 <= i < |children| && children[i] == c;
      assert i == j;
    }
  }

  lemma OneOwner(w: World, p: Owner)
    requires w.Valid()
    ensures SumWhere(w.order, {p}, TotalCount(w)) == TotalCount(w)(p)
  {
    OrderMembers(w);
    if p in w.allocations {
      SumSingleton(w.order, p, TotalCount(w));
    } else {
      WhereNone(w.order, {p});
    }
  }

  ghost predicate CostsItsOwner(order: seq<Owner>, c: SubAgent, byChild: SubAgent -> Count, byOwner: Owner -> Count) {
    byChild(c).cost == SumWhere(order, {Agent(c.agentId)}, byOwner).cost
  }

  /** Summing over children is summing over the owners they are. */
  lemma {:induction false} SumAsOwners(
    order: seq<Owner>, children: seq<SubAgent>, byChild: SubAgent -> Count, byOwner: Owner -> Count)
    requires UniqueIds(children)
    requires forall c :: c in children ==> CostsItsOwner(order, c, byChild, byOwner)
    ensures Sum(children, byChild).cost == SumWhere(order, OwnersAmong(children), byOwner).cost
  {
    if children == [] {
      NobodyAmong(order, byOwner);
    } else {
      var first, rest := children[0], children[1..];
      assert CostsItsOwner(order, first, byChild, byOwner);
      assert forall c :: c in rest ==> c in children;
      FirstApart(children);
      var owners, others := {Agent(first.agentId)}, OwnersAmong(rest);
      assert Sum(children, byChild) == byChild(first).Plus(Sum(rest, byChild));
      hide OwnersAmong, UniqueIds, SumWhere, Sum, Count.Plus;
      SumAsOwners(order, rest, byChild, byOwner);
      SumWhereUnion(order, owners, others, byOwner);
      CostsPlus(byChild(first), Sum(rest, byChild));
      CostsPlus(SumWhere(order, owners, byOwner), SumWhere(order, others, byOwner));
    }
  }

  lemma CostsPlus(a: Count, b: Count)
    ensures a.Plus(b).cost == a.cost + b.cost
  {
  }

  lemma NobodyAmong(order: seq<Owner>, byOwner: Owner -> Count)
    ensures SumWhere(order, OwnersAmong([]), byOwner) == ZERO
  {
    WhereNone(order, OwnersAmong([]));
  }

  lemma ChildrenAsOwners(w: World, o: Owner, children: seq<SubAgent>)
    requires w.Valid() && UniqueIds(children) && forall c :: c in children ==> c in ChildrenOf(o, w.agents)
    ensures Sum(children, ChildCount(TotalsOf(w))).cost == SumWhere(w.order, OwnersAmong(children), TotalCount(w)).cost
  {
    forall c | c in children
      ensures CostsItsOwner(w.order, c, ChildCount(TotalsOf(w)), TotalCount(w))
    {
      ChildShows(w, o, c);
      OneOwner(w, Agent(c.agentId));
    }
    hide ChildCount, TotalCount, TotalsOf, SumWhere, OwnersAmong;
    SumAsOwners(w.order, children, ChildCount(TotalsOf(w)), TotalCount(w));
  }

  lemma FirstApart(children: seq<SubAgent>)
    requires children != [] && UniqueIds(children)
    ensures UniqueIds(children[1..])
    ensures Agent(children[0].agentId) !in OwnersAmong(children[1..])
    ensures OwnersAmong(children) == {Agent(children[0].agentId)} + OwnersAmong(children[1..])
  {
    assert forall c :: c in children <==> c == children[0] || c in children[1..];
    forall d | d in children[1..] ensures d.agentId != children[0].agentId {
      var k :| 0 <= k < |children[1..]| && children[1..][k] == d;
      assert children[k + 1] == d;
    }
  }

  lemma ElsewhereAsOwners(w: World, o: Owner)
    requires w.Valid() && o in w.allocations
    ensures Sum(LaunchedElsewhere(w.allocations[o], ChildrenOf(o, w.agents)), ChildCount(TotalsOf(w))).cost
         == SumWhere(w.order, Elsewhere(w, o), TotalCount(w)).cost
  {
    var children := ChildrenOf(o, w.agents);
    var elsewhere := LaunchedElsewhere(w.allocations[o], children);
    ChildrenListed(o, w.agents);
    forall c | c in elsewhere ensures c in children {
      ElsewhereMeans(w.allocations[o], children, c);
    }
    assert UniqueIds(elsewhere) by {
      WhereUnique(children, Elements(children) - UnionOf(LaunchSets(w.allocations[o], children, SingleWindows(w.allocations[o].windows))));
    }
    ChildrenAsOwners(w, o, elsewhere);
  }

  lemma {:induction false} WhereUnique(children: seq<SubAgent>, keep: set<SubAgent>)
    requires UniqueIds(children)
    ensures UniqueIds(Where(children, keep))
    ensures forall c :: c in Where(children, keep) ==> c in children
  {
    if children != [] {
      FirstApart(children);
      WhereUnique(children[1..], keep);
      var rest := Where(children[1..], keep);
      forall i | 0 <= i < |rest| ensures rest[i].agentId != children[0].agentId {
        assert rest[i] in children[1..];
      }
    }
  }

  /** A row shows the parts of its total, its own cost and its request lines. */
  ghost predicate AddsUp(row: AgentCostRow, elsewhere: real) {
    && row.includingDescendants.cost.costUsd
         == SkillTotals(row.skills) + row.shared.cost.costUsd + row.unattributed.cost.costUsd + elsewhere
    && row.own.cost.costUsd == SkillOwns(row.skills) + row.shared.cost.costUsd + row.unattributed.cost.costUsd
    && multiset(row.own.requestLines)
         == multiset(SkillLines(row.skills) + row.shared.requestLines + row.unattributed.requestLines)
  }

  lemma TotalParts(w: World, o: Owner)
    requires w.Valid() && o in w.allocations && WellFormed(w.allocations[o]) && !Loops(w.Links(), o)
    ensures var a, children := w.allocations[o], ChildrenOf(o, w.agents);
      TotalsOf(w)[o].costUsd
        == Sum(SingleWindows(a.windows), SkillCount(a, children, TotalsOf(w))).cost
           + TallyWhere(a, SharedWindows(a)).costUsd + TallyWhere(a, {Outside}).costUsd
           + SumWhere(w.order, Elsewhere(w, o), TotalCount(w)).cost
  {
    SkillsAddUpToTotal(w, o);
    ElsewhereAsOwners(w, o);
    hide TotalsOf, TallyWhere, WellFormed, ChildrenOf, Sum, SumWhere, Elsewhere, SingleWindows, SharedWindows, LaunchedElsewhere;
    hide SkillCount, ChildCount, TotalCount;
  }

  lemma OwnParts(a: Allocation)
    requires WellFormed(a)
    ensures OwnTally(a).costUsd
         == Sum(SingleWindows(a.windows), WindowCount(a)).cost
            + TallyWhere(a, SharedWindows(a)).costUsd + TallyWhere(a, {Outside}).costUsd
  {
    WindowsPartitionOwn(a);
    hide OwnTally, TallyWhere, WellFormed, Sum, SingleWindows, SharedWindows, WindowCount;
  }

  lemma RowLinesAddUp(ledger: Ledger, o: Owner)
    requires ledger.Valid() && o in ledger.world.allocations
    ensures var row := RowOf(ledger, TotalsOf(ledger.world), o);
      multiset(row.own.requestLines)
        == multiset(SkillLines(row.skills) + row.shared.requestLines + row.unattributed.requestLines)
  {
    var w := ledger.world;
    var a := w.allocations[o];
    EachRequestListedOnce(a);
    RowShows(ledger, TotalsOf(w), o);
    SkillsShow(a, ChildrenOf(o, w.agents), TotalsOf(w), SingleWindows(a.windows));
    hide *;
  }

  lemma RowCostsAddUp(ledger: Ledger, o: Owner)
    requires ledger.Valid() && o in ledger.world.allocations && !Loops(ledger.world.Links(), o)
    ensures var row, w := RowOf(ledger, TotalsOf(ledger.world), o), ledger.world;
      var elsewhere := SumWhere(w.order, Elsewhere(w, o), TotalCount(w)).cost;
      && row.includingDescendants.cost.costUsd
           == SkillTotals(row.skills) + row.shared.cost.costUsd + row.unattributed.cost.costUsd + elsewhere
      && row.own.cost.costUsd == SkillOwns(row.skills) + row.shared.cost.costUsd + row.unattributed.cost.costUsd
  {
    var w := ledger.world;
    var a, children, totals := w.allocations[o], ChildrenOf(o, w.agents), TotalsOf(w);
    TotalParts(w, o);
    OwnParts(a);
    RowShows(ledger, totals, o);
    SkillsShow(a, children, totals, SingleWindows(a.windows));
    ReadingCost(OwnTally(a));
    ReadingCost(TallyWhere(a, SharedWindows(a)));
    ReadingCost(TallyWhere(a, {Outside}));
    hide *;
  }

  lemma ReadingCost(counted: Tally)
    ensures ReadingOf(counted).costUsd == counted.costUsd
  {
  }

  lemma RowPartsAddUp(ledger: Ledger, o: Owner)
    requires ledger.Valid() && o in ledger.world.allocations && !Loops(ledger.world.Links(), o)
    ensures AddsUp(RowOf(ledger, TotalsOf(ledger.world), o), SumWhere(ledger.world.order, Elsewhere(ledger.world, o), TotalCount(ledger.world)).cost)
  {
    var row := RowOf(ledger, TotalsOf(ledger.world), o);
    var elsewhere := SumWhere(ledger.world.order, Elsewhere(ledger.world, o), TotalCount(ledger.world)).cost;
    RowLinesAddUp(ledger, o);
    RowCostsAddUp(ledger, o);
    hide *;
    AddsUpFrom(row, elsewhere);
  }

  lemma AddsUpFrom(row: AgentCostRow, elsewhere: real)
    requires row.includingDescendants.cost.costUsd
      == SkillTotals(row.skills) + row.shared.cost.costUsd + row.unattributed.cost.costUsd + elsewhere
    requires row.own.cost.costUsd == SkillOwns(row.skills) + row.shared.cost.costUsd + row.unattributed.cost.costUsd
    requires multiset(row.own.requestLines)
      == multiset(SkillLines(row.skills) + row.shared.requestLines + row.unattributed.requestLines)
    ensures AddsUp(row, elsewhere)
  {
  }

  /**
   * Each returned row outside a loop adds up: its skills including descendants, its shared and
   * unattributed costs and the rows of the children launched elsewhere are its total, and its
   * request lines are those of its skills, shared and unattributed, each exactly once.
   */
  lemma ReturnedRowsAddUp(input: TreeInput, readers: Readers, usage: ModelUsage, i: nat)
    requires RowsAscend(input) && usage.Valid() && input.rootSeries.boundaryKnown
    requires i < |WorldOf(input, readers).order|
    requires !Loops(WorldOf(input, readers).Links(), WorldOf(input, readers).order[i])
    ensures var returned := AllocateCost(input, readers, usage);
      var w := WorldOf(input, readers);
      && returned.CostAllocation? && |Rows(returned)| == |w.order| && w.order[i] in w.allocations
      && AddsUp(Rows(returned)[i], RowTotals(Rows(returned), Elsewhere(w, w.order[i])))
  {
    AllocationReturns(input, readers, usage);
    LedgerIsValid(input, readers, usage);
    ReturnedRowsShow(input, readers, usage);
    var ledger, returned := LedgerOf(input, readers, usage), AllocateCost(input, readers, usage);
    var w := ledger.world;
    assert w.order[i] in w.allocations;
    RowPartsAddUp(ledger, w.order[i]);
    RowCosts(Rows(returned), w.order, TotalCount(w), OwnCount(w), Elsewhere(w, w.order[i]));
    hide AllocateCost, WorldOf, LedgerOf, RowsAscend, TotalCount, OwnCount, RowTotals, RowOwns, Elsewhere, AddsUp, RowOf, Loops;
    hide ShowCosts, CalculatedTally, ModelRows, TotalsOf, UnavailableIds, MissingReasons, AgentsOf;
  }

  /** What each skill of a row reads: its window's count, with and without the children launched in it. */
  ghost predicate SkillsRead(
    skills: seq<SkillCost>, windows: seq<nat>, total: nat -> Count, own: nat -> Count)
  {
    && |skills| == |windows|
    && forall k :: 0 <= k < |skills| ==>
         Reads(skills[k].includingDescendants.cost, total(windows[k])) && Reads(skills[k].own.cost, own(windows[k]))
  }

  lemma FirstSkillReads(a: Allocation, children: seq<SubAgent>, totals: map<Owner, Tally>, windows: seq<nat>)
    requires windows != [] && forall i :: i in windows ==> i < |a.windows| && |a.windows[i].invocations| == 1
    ensures var skills := SkillCosts(a, children, totals, windows);
      && skills != []
      && Reads(skills[0].includingDescendants.cost, SkillCount(a, children, totals)(windows[0]))
      && Reads(skills[0].own.cost, WindowCount(a)(windows[0]))
  {
    assert windows[0] in windows;
    ReadingReads(SkillTally(a, children, totals, windows[0]));
    ReadingReads(TallyWhere(a, {Inside(windows[0])}));
    hide SkillTally, TallyWhere, LinesWhere, Launched, Reads, ReadingOf;
  }

  lemma {:induction false} SkillCostsRead(a: Allocation, children: seq<SubAgent>, totals: map<Owner, Tally>, windows: seq<nat>)
    requires forall i :: i in windows ==> i < |a.windows| && |a.windows[i].invocations| == 1
    ensures SkillsRead(SkillCosts(a, children, totals, windows), windows, SkillCount(a, children, totals), WindowCount(a))
  {
    if windows != [] {
      FirstSkill(a, children, totals, windows);
      FirstSkillReads(a, children, totals, windows);
      hide SkillCosts, SkillCount, WindowCount, LinesWhere, Reads, SkillsRead;
      SkillCostsRead(a, children, totals, windows[1..]);
      OneMoreReads(SkillCosts(a, children, totals, windows), windows, SkillCount(a, children, totals), WindowCount(a));
    }
  }

  lemma OneMoreReads(skills: seq<SkillCost>, windows: seq<nat>, total: nat -> Count, own: nat -> Count)
    requires skills != [] && windows != [] && SkillsRead(skills[1..], windows[1..], total, own)
    requires Reads(skills[0].includingDescendants.cost, total(windows[0])) && Reads(skills[0].own.cost, own(windows[0]))
    ensures SkillsRead(skills, windows, total, own)
  {
    hide Reads;
    forall k | 0 <= k < |skills|
      ensures k < |windows|
      ensures Reads(skills[k].includingDescendants.cost, total(windows[k])) && Reads(skills[k].own.cost, own(windows[k]))
    {
      if k > 0 {
        assert skills[1..][k - 1] == skills[k] && windows[1..][k - 1] == windows[k];
      }
    }
  }

  /** The counts a row's parts read, for an owner: its skills, what they share, what none has, and other children. */
  ghost predicate PartsRead(row: AgentCostRow, w: World, o: Owner)
    requires w.Valid() && o in w.allocations
  {
    var a, children := w.allocations[o], ChildrenOf(o, w.agents);
    var windows := SingleWindows(a.windows);
    var shared, unattributed := TallyWhere(a, SharedWindows(a)).Value(), TallyWhere(a, {Outside}).Value();
    && SkillsRead(row.skills, windows, SkillCount(a, children, TotalsOf(w)), WindowCount(a))
    && Reads(row.shared.cost, shared) && Reads(row.unattributed.cost, unattributed)
    && Reads(row.own.cost, Sum(windows, WindowCount(a)).Plus(shared).Plus(unattributed))
    && Reads(row.includingDescendants.cost,
         Sum(windows, SkillCount(a, children, TotalsOf(w))).Plus(shared).Plus(unattributed)
           .Plus(Sum(LaunchedElsewhere(a, children), ChildCount(TotalsOf(w)))))
  }

  lemma RowPartsRead(ledger: Ledger, o: Owner)
    requires ledger.Valid() && o in ledger.world.allocations && !Loops(ledger.world.Links(), o)
    ensures PartsRead(RowOf(ledger, TotalsOf(ledger.world), o), ledger.world, o)
  {
    var w := ledger.world;
    var a, children := w.allocations[o], ChildrenOf(o, w.agents);
    RowShows(ledger, TotalsOf(w), o);
    RowReads(ledger, o);
    SkillCostsRead(a, children, TotalsOf(w), SingleWindows(a.windows));
    ReadingReads(TallyWhere(a, SharedWindows(a)));
    ReadingReads(TallyWhere(a, {Outside}));
    ReadingReads(OwnTally(a));
    SkillsAddUpToTotal(w, o);
    WindowsPartitionOwn(a);
    hide RowOf, TotalsOf, SkillsRead, Reads, ReadingOf, SkillCosts, TallyWhere, LinesWhere, OwnTally, WellFormed, ChildrenOf, Sum;
    hide SingleWindows, SharedWindows, SkillCount, WindowCount, ChildCount, LaunchedElsewhere, Loops, World.Links;
  }

  /**
   * So do the readings, counts and reasons included: each returned row outside a loop reads as its
   * total the sum of what its skills read including descendants, of what its shared and
   * unattributed costs read, and of the totals of the children launched elsewhere.
   */
  lemma ReturnedPartsRead(input: TreeInput, readers: Readers, usage: ModelUsage, i: nat)
    requires RowsAscend(input) && usage.Valid() && input.rootSeries.boundaryKnown
    requires i < |WorldOf(input, readers).order|
    requires !Loops(WorldOf(input, readers).Links(), WorldOf(input, readers).order[i])
    ensures var returned := AllocateCost(input, readers, usage);
      var w := WorldOf(input, readers);
      && w.Valid() && returned.CostAllocation? && |Rows(returned)| == |w.order| && w.order[i] in w.allocations
      && PartsRead(Rows(returned)[i], w, w.order[i])
  {
    AllocationReturns(input, readers, usage);
    LedgerIsValid(input, readers, usage);
    var ledger := LedgerOf(input, readers, usage);
    var w := ledger.world;
    hide AllocateCost, WorldOf, LedgerOf, RowsAscend, PartsRead, RowOf, Loops, CalculatedTally, ModelRows, TotalsOf;
    hide UnavailableIds, MissingReasons, AgentsOf;
    assert w.order[i] in w.allocations;
    RowPartsRead(ledger, w.order[i]);
  }

  // ---- what a row names

  /** The ids of the agents of the attempt that link to the owner, each once. */
  ghost predicate NamesChildren(ids: seq<string>, agents: seq<SubAgent>, o: Owner) {
    && NoRepeats(ids)
    && forall id :: id in ids <==>
         exists agent :: agent in agents && agent.agentId == id && agent.context != Inherited && ParentOwner(agent.parent) == Some(o)
  }

  function AgentIdsOf(agents: seq<SubAgent>): seq<string> {
    seq(|agents|, i requires 0 <= i < |agents| => agents[i].agentId)
  }

  lemma ChildrenNamed(agents: seq<SubAgent>, o: Owner)
    requires UniqueIds(agents)
    ensures NamesChildren(AgentIdsOf(ChildrenOf(o, agents)), agents, o)
  {
    var children := ChildrenOf(o, agents);
    var ids := AgentIdsOf(children);
    ChildrenListed(o, agents);
    hide ChildrenOf;
    forall id
      ensures id in ids <==>
        exists agent :: agent in agents && agent.agentId == id && agent.context != Inherited && ParentOwner(agent.parent) == Some(o)
    {
      if id in ids {
        var i :| 0 <= i < |ids| && ids[i] == id;
        assert children[i] in children;
      }
      if agent :| agent in agents && agent.agentId == id && agent.context != Inherited && ParentOwner(agent.parent) == Some(o) {
        assert agent in children;
        var i :| 0 <= i < |children| && children[i] == agent;
        assert ids[i] == id;
      }
    }
  }

  /** A skill's cost is named by the one invocation of its window, and its total by the children launched in the window. */
  ghost predicate NamesSkill(skill: SkillCost, a: Allocation, children: seq<SubAgent>, window: nat) {
    && window < |a.windows| && |a.windows[window].invocations| == 1
    && skill.skill == a.windows[window].invocations[0].skill
    && skill.deliveryLine == a.windows[window].invocations[0].deliveryLine
    && skill.own.requestLines == LinesWhere(a, {Inside(window)})
    && skill.includingDescendants.childAgentIds == AgentIdsOf(Launched(a, children, window))
  }

  lemma {:induction false} SkillsNamed(a: Allocation, children: seq<SubAgent>, totals: map<Owner, Tally>, windows: seq<nat>)
    requires forall i :: i in windows ==> i < |a.windows| && |a.windows[i].invocations| == 1
    ensures var skills := SkillCosts(a, children, totals, windows);
      |skills| == |windows| && forall k :: 0 <= k < |windows| ==> NamesSkill(skills[k], a, children, windows[k])
  {
    if windows != [] {
      assert windows[0] in windows;
      assert forall i :: i in windows[1..] ==> i in windows;
      SkillsNamed(a, children, totals, windows[1..]);
      var skills := SkillCosts(a, children, totals, windows);
      assert skills[1..] == SkillCosts(a, children, totals, windows[1..]);
      FirstSkillNamed(a, children, totals, windows);
      hide SkillCosts, NamesSkill;
      forall k | 0 <= k < |windows| ensures NamesSkill(skills[k], a, children, windows[k]) {
        if k > 0 {
          assert skills[1..][k - 1] == skills[k] && windows[1..][k - 1] == windows[k];
        }
      }
    }
  }

  lemma FirstSkillNamed(a: Allocation, children: seq<SubAgent>, totals: map<Owner, Tally>, windows: seq<nat>)
    requires windows != [] && forall i :: i in windows ==> i < |a.windows| && |a.windows[i].invocations| == 1
    ensures var skills := SkillCosts(a, children, totals, windows);
      skills != [] && NamesSkill(skills[0], a, children, windows[0])
  {
    assert windows[0] in windows;
    assert forall i :: i in windows[1..] ==> i in windows;
    hide SkillTally, TallyWhere, LinesWhere, Launched;
  }

  /** A row names the owner's children, and a skill for each window of one skill, in order. */
  ghost predicate NamesParts(row: AgentCostRow, w: World, o: Owner)
    requires o in w.allocations
  {
    var a, windows := w.allocations[o], SingleWindows(w.allocations[o].windows);
    && NamesChildren(row.includingDescendants.childAgentIds, w.agents, o)
    && |row.skills| == |windows|
    && forall k :: 0 <= k < |windows| ==> NamesSkill(row.skills[k], a, ChildrenOf(o, w.agents), windows[k])
  }

  lemma RowNames(ledger: Ledger, totals: map<Owner, Tally>, o: Owner)
    requires o in ledger.world.allocations && o in totals && UniqueIds(ledger.world.agents)
    ensures NamesParts(RowOf(ledger, totals, o), ledger.world, o)
  {
    var w := ledger.world;
    var a, children := w.allocations[o], ChildrenOf(o, w.agents);
    SingleWindowsListed(a.windows);
    RowShows(ledger, totals, o);
    ChildrenNamed(w.agents, o);
    SkillsNamed(a, children, totals, SingleWindows(a.windows));
    assert RowOf(ledger, totals, o).includingDescendants.childAgentIds == AgentIdsOf(children);
    hide RowOf, NamesSkill, NamesChildren, ChildrenOf, SingleWindows, SkillCosts, AgentIdsOf, TallyWhere, LinesWhere, OwnTally;
  }

  /** Every returned row names the children its total includes and the skill and delivery of each window of one skill. */
  lemma ReturnedRowsName(input: TreeInput, readers: Readers, usage: ModelUsage, i: nat)
    requires RowsAscend(input) && usage.Valid() && input.rootSeries.boundaryKnown
    requires i < |WorldOf(input, readers).order|
    ensures var returned := AllocateCost(input, readers, usage);
      var w := WorldOf(input, readers);
      && returned.CostAllocation? && |Rows(returned)| == |w.order| && w.order[i] in w.allocations
      && w.agents == AgentsOf(input)
      && NamesParts(Rows(returned)[i], w, w.order[i])
  {
    AllocationReturns(input, readers, usage);
    LedgerIsValid(input, readers, usage);
    ParticipantOwners(input, readers);
    var ledger := LedgerOf(input, readers, usage);
    var w := ledger.world;
    hide AllocateCost, WorldOf, LedgerOf, RowsAscend, NamesParts, RowOf, CalculatedTally, ModelRows, TotalsOf;
    hide UnavailableIds, MissingReasons, AgentsOf, SubParticipants, OwnersOf;
    RowNames(ledger, TotalsOf(w), w.order[i]);
  }

  lemma ModelRowReports(ledger: Ledger, missing: seq<string>, i: nat)
    requires ledger.Valid() && i < |ModelRows(ledger, missing)|
    ensures var row := ModelRows(ledger, missing)[i];
      && (row.reportedUsd.Some? <==> row.model in ledger.modelUsage.costUsd)
      && (row.reportedUsd.Some? ==> row.reportedUsd.value == ledger.modelUsage.costUsd[row.model])
  {
    hide RowModels, RowTally, ReadingOf, Ledger.Valid;
  }

  /** Every returned row by model reports what the provider counted for the model, or that it counted nothing. */
  lemma ReturnedModelsReport(input: TreeInput, readers: Readers, usage: ModelUsage, i: nat)
    requires RowsAscend(input) && usage.Valid() && input.rootSeries.boundaryKnown
    ensures var returned := AllocateCost(input, readers, usage);
      && returned.CostAllocation?
      && (i < |returned.byModel| ==>
            var row := returned.byModel[i];
            && (row.reportedUsd.Some? <==> row.model in usage.costUsd)
            && (row.reportedUsd.Some? ==> row.reportedUsd.value == usage.costUsd[row.model]))
  {
    AllocationReturns(input, readers, usage);
    var ledger, missing := LedgerOf(input, readers, usage), MissingReasons(UnavailableIds(AgentsOf(input)));
    assert ledger.modelUsage == usage;
    if i < |ModelRows(ledger, missing)| {
      ModelRowReports(ledger, missing, i);
    }
    hide AllocateCost, LedgerOf, WorldOf, RowsAscend, ModelRows, CalculatedTally, RowsMatch, UnavailableIds, AgentsOf, Ledger.Valid;
  }

  // ---- the provider's costs

  /** The models a row's provider cost is reported for. */
  function ProviderModels(row: AgentCostRow): set<string> {
    if row.provider.Reported? then set m | m in row.provider.models else {}
  }

  function ProviderTotal(rows: seq<AgentCostRow>): real {
    if rows == [] then 0.0
    else (if rows[0].provider.Reported? then rows[0].provider.costUsd else 0.0) + ProviderTotal(rows[1..])
  }

  ghost predicate ProvidersMatch(rows: seq<AgentCostRow>, ledger: Ledger, owners: seq<Owner>) {
    && |rows| == |owners|
    && forall i :: 0 <= i < |rows| ==> owners[i] in ledger.world.allocations && rows[i].provider == ProviderCostOf(ledger, owners[i])
  }

  lemma RowsMatchProviders(rows: seq<AgentCostRow>, ledger: Ledger, totals: map<Owner, Tally>)
    requires RowsMatch(rows, ledger, totals)
    ensures ProvidersMatch(rows, ledger, ledger.world.order)
  {
    hide RowOf, ProviderCostOf;
    forall i | 0 <= i < |rows| ensures rows[i].provider == ProviderCostOf(ledger, ledger.world.order[i]) {
      RowProvider(ledger, totals, ledger.world.order[i]);
    }
  }

  lemma ReturnedProviders(input: TreeInput, readers: Readers, usage: ModelUsage)
    requires RowsAscend(input) && usage.Valid() && input.rootSeries.boundaryKnown
    ensures var returned, ledger := AllocateCost(input, readers, usage), LedgerOf(input, readers, usage);
      ledger.Valid() && returned.CostAllocation? && ProvidersMatch(Rows(returned), ledger, ledger.world.order)
  {
    AllocationReturns(input, readers, usage);
    LedgerIsValid(input, readers, usage);
    var ledger, rows := LedgerOf(input, readers, usage), Rows(AllocateCost(input, readers, usage));
    hide AllocateCost, WorldOf, LedgerOf, RowsAscend, RowsMatch, ProvidersMatch, CalculatedTally, ModelRows, TotalsOf, Rows;
    RowsMatchProviders(rows, ledger, TotalsOf(ledger.world));
  }

  lemma RowProvider(ledger: Ledger, totals: map<Owner, Tally>, o: Owner)
    requires o in ledger.world.allocations && o in totals
    ensures RowOf(ledger, totals, o).provider == ProviderCostOf(ledger, o)
  {
    hide ProviderCostOf, SkillCosts, SharedWindows, TallyWhere, LinesWhere, OwnTally, ChildrenOf;
  }

  lemma ReportedModelsShown(ledger: Ledger, o: Owner)
    requires ledger.Valid() && o in ledger.world.allocations
    ensures ProviderCostOf(ledger, o).Reported? ==> (set m | m in ProviderCostOf(ledger, o).models) == ReportedModels(ledger, o)
    ensures !ProviderCostOf(ledger, o).Reported? ==> ReportedModels(ledger, o) == {}
  {
  }

  lemma MatchedModels(rows: seq<AgentCostRow>, ledger: Ledger, i: nat)
    requires ledger.Valid() && ProvidersMatch(rows, ledger, ledger.world.order) && i < |rows|
    ensures ledger.world.order[i] in ledger.world.allocations
    ensures ProviderModels(rows[i]) == ReportedModels(ledger, ledger.world.order[i])
  {
    ReportedModelsShown(ledger, ledger.world.order[i]);
    hide ProviderCostOf, ReportedModels, Ledger.Valid;
  }

  lemma RowModelsExclusive(rows: seq<AgentCostRow>, ledger: Ledger, i: nat, j: nat)
    requires ledger.Valid() && ProvidersMatch(rows, ledger, ledger.world.order) && i < |rows| && j < |rows| && i != j
    ensures ProviderModels(rows[i]) !! ProviderModels(rows[j])
  {
    MatchedModels(rows, ledger, i);
    MatchedModels(rows, ledger, j);
    var owners := ledger.world.order;
    assert owners[i] != owners[j];
    hide ProviderModels, ReportedModels, ProvidersMatch, Ledger.Valid, World.Valid;
    ReportedModelsExclusive(ledger, owners[i], owners[j]);
  }

  lemma RowModelsBefore(rows: seq<AgentCostRow>, ledger: Ledger, i: nat)
    requires ledger.Valid() && ProvidersMatch(rows, ledger, ledger.world.order) && i < |rows|
    ensures forall m :: m in ProviderModels(rows[i]) ==>
      ledger.modelsBeforeAttempt.Some? && m !in ledger.modelsBeforeAttempt.value
  {
    MatchedModels(rows, ledger, i);
    ReportedModelsRanAlone(ledger, ledger.world.order[i]);
    hide ProviderModels, ReportedModels, ProvidersMatch, Ledger.Valid, World.Valid, ModelsOf;
  }

  /** No model's provider cost is reported in two returned rows, and none that ran before the attempt in any. */
  lemma ReturnedModelsExclusive(input: TreeInput, readers: Readers, usage: ModelUsage, i: nat)
    requires RowsAscend(input) && usage.Valid() && input.rootSeries.boundaryKnown
    ensures var returned, before := AllocateCost(input, readers, usage), ModelsBeforeAttempt(AgentTreeOf(input));
      && returned.CostAllocation?
      && (i < |Rows(returned)| ==>
            && (forall j :: 0 <= j < |Rows(returned)| && j != i ==>
                  ProviderModels(Rows(returned)[i]) !! ProviderModels(Rows(returned)[j]))
            && forall m :: m in ProviderModels(Rows(returned)[i]) ==> before.Some? && m !in before.value)
  {
    ReturnedProviders(input, readers, usage);
    var ledger, rows := LedgerOf(input, readers, usage), Rows(AllocateCost(input, readers, usage));
    assert ledger.modelsBeforeAttempt == ModelsBeforeAttempt(AgentTreeOf(input));
    hide AllocateCost, LedgerOf, RowsAscend, Rows, ProvidersMatch, ProviderModels, ModelsBeforeAttempt, AgentTreeOf, Ledger.Valid;
    if i < |rows| {
      RowModelsBefore(rows, ledger, i);
      forall j | 0 <= j < |rows| && j != i ensures ProviderModels(rows[i]) !! ProviderModels(rows[j]) {
        RowModelsExclusive(rows, ledger, i, j);
      }
    }
  }

  lemma {:induction false} ProviderTotalIs(rows: seq<AgentCostRow>, ledger: Ledger, owners: seq<Owner>)
    requires ProvidersMatch(rows, ledger, owners)
    ensures ProviderTotal(rows) == Sum(owners, ReportedCount(ledger)).cost
  {
    hide ProviderCostOf;
    if rows != [] {
      ProviderTotalIs(rows[1..], ledger, owners[1..]);
      assert rows[0].provider == ProviderCostOf(ledger, owners[0]);
    }
  }

  /** The provider costs of all returned rows together never exceed what the provider counted. */
  lemma ReturnedNeverExceedsUsage(input: TreeInput, readers: Readers, usage: ModelUsage)
    requires RowsAscend(input) && usage.Valid() && input.rootSeries.boundaryKnown
    ensures var returned := AllocateCost(input, readers, usage);
      returned.CostAllocation? && ProviderTotal(Rows(returned)) <= Sum(usage.names, UsageCount(usage)).cost
  {
    ReturnedProviders(input, readers, usage);
    var ledger, rows := LedgerOf(input, readers, usage), Rows(AllocateCost(input, readers, usage));
    assert ledger.modelUsage == usage;
    hide AllocateCost, LedgerOf, RowsAscend, Rows, ProvidersMatch, ProviderTotal, Sum, ReportedCount, UsageCount;
    ProviderTotalIs(rows, ledger, ledger.world.order);
    ReportedNeverExceedsUsage(ledger);
  }

  // ---- the rows by model

  function ModelTotals(rows: seq<ModelCost>): real {
    if rows == [] then 0.0 else rows[0].calculated.costUsd + ModelTotals(rows[1..])
  }

  lemma ModelRowShows(ledger: Ledger, missing: seq<string>, i: nat)
    requires ledger.Valid() && i < |RowModels(ledger)|
    ensures ModelRows(ledger, missing)[i].calculated.costUsd == RowCount(ledger)(RowModels(ledger)[i]).cost
  {
    RowTallyCounts(ledger, missing, RowModels(ledger)[i]);
    hide RowTally, RowCount;
  }

  lemma {:induction false} ModelsShow(rows: seq<ModelCost>, models: seq<string>, count: string -> Count)
    requires |rows| == |models| && forall i :: 0 <= i < |rows| ==> rows[i].calculated.costUsd == count(models[i]).cost
    ensures ModelTotals(rows) == Sum(models, count).cost
  {
    if rows != [] {
      ModelsShow(rows[1..], models[1..], count);
    }
  }

  /** With distinct lines the rows by model and the entries without a row are the calculated cost. */
  lemma ReturnedModelsAddUp(input: TreeInput, readers: Readers, usage: ModelUsage)
    requires RowsAscend(input) && usage.Valid() && input.rootSeries.boundaryKnown
    requires LinesDistinct(WorldOf(input, readers))
    ensures var returned := AllocateCost(input, readers, usage);
      var ledger := LedgerOf(input, readers, usage);
      && returned.CostAllocation?
      && returned.calculated.costUsd
           == ModelTotals(returned.byModel) + Sum(ledger.world.order, OffRowPart(ledger.world, RowModels(ledger))).cost
  {
    AllocationReturns(input, readers, usage);
    LedgerIsValid(input, readers, usage);
    var ledger, missing := LedgerOf(input, readers, usage), MissingReasons(UnavailableIds(AgentsOf(input)));
    CalculatedIsTheModels(ledger, missing);
    forall i | 0 <= i < |RowModels(ledger)|
      ensures ModelRows(ledger, missing)[i].calculated.costUsd == RowCount(ledger)(RowModels(ledger)[i]).cost
    {
      ModelRowShows(ledger, missing, i);
    }
    assert |ModelRows(ledger, missing)| == |RowModels(ledger)|;
    hide AllocateCost, WorldOf, LedgerOf, RowsAscend, CalculatedTally, ModelRows, RowModels, RowCount, OffRowPart, Sum, RowsMatch;
    ModelsShow(ModelRows(ledger, missing), RowModels(ledger), RowCount(ledger));
  }

  lemma ModelRowReads(ledger: Ledger, missing: seq<string>, i: nat)
    requires ledger.Valid() && i < |RowModels(ledger)|
    ensures |ModelRows(ledger, missing)| == |RowModels(ledger)|
    ensures ModelRows(ledger, missing)[i].model == RowModels(ledger)[i]
    ensures Reads(ModelRows(ledger, missing)[i].calculated,
      ReasonOnly(Elements(RowReasons(ledger, missing))).Plus(RowCount(ledger)(RowModels(ledger)[i])))
  {
    RowTallyCounts(ledger, missing, RowModels(ledger)[i]);
    ReadingReads(RowTally(ledger, missing, RowModels(ledger)[i]));
    hide RowTally, RowCount, Reads, ReadingOf, RowReasons, RowModels;
  }

  /**
   * So do the readings, counts and reasons included: `calculated` reads the counts the rows by
   * model read, the entries without a row, and the reasons of unreadable lines and missing agents.
   */
  lemma ReturnedModelsRead(input: TreeInput, readers: Readers, usage: ModelUsage)
    requires RowsAscend(input) && usage.Valid() && input.rootSeries.boundaryKnown
    requires LinesDistinct(WorldOf(input, readers))
    ensures var returned, ledger := AllocateCost(input, readers, usage), LedgerOf(input, readers, usage);
      var missing, models := MissingReasons(UnavailableIds(AgentsOf(input))), RowModels(ledger);
      var w := ledger.world;
      && returned.CostAllocation? && |returned.byModel| == |models|
      && (forall i :: 0 <= i < |models| ==>
            && returned.byModel[i].model == models[i]
            && Reads(returned.byModel[i].calculated,
                 ReasonOnly(Elements(RowReasons(ledger, missing))).Plus(RowCount(ledger)(models[i]))))
      && Reads(returned.calculated,
           ReasonOnly(UnreadableAnywhere(w)).Plus(Sum(models, RowCount(ledger)).Plus(Sum(w.order, OffRowPart(w, models))))
             .Plus(ReasonOnly(Elements(missing))))
  {
    AllocationReturns(input, readers, usage);
    LedgerIsValid(input, readers, usage);
    var ledger, missing := LedgerOf(input, readers, usage), MissingReasons(UnavailableIds(AgentsOf(input)));
    assert |ModelRows(ledger, missing)| == |RowModels(ledger)|;
    hide AllocateCost, WorldOf, LedgerOf, RowsAscend, CalculatedTally, ModelRows, RowModels, RowCount, OffRowPart, Sum, RowsMatch;
    hide Reads, ReadingOf, MissingReasons, UnavailableIds, AgentsOf, RowReasons, LinesDistinct, UnreadableAnywhere;
    CalculatedIsTheModels(ledger, missing);
    ReadingReads(CalculatedTally(ledger.world, missing));
    forall i | 0 <= i < |RowModels(ledger)|
      ensures ModelRows(ledger, missing)[i].model == RowModels(ledger)[i]
      ensures Reads(ModelRows(ledger, missing)[i].calculated,
        ReasonOnly(Elements(RowReasons(ledger, missing))).Plus(RowCount(ledger)(RowModels(ledger)[i])))
    {
      ModelRowReads(ledger, missing, i);
    }
  }
}
