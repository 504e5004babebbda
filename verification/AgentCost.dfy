/** The attempt's cost, allocated to agents and, within each, to skill windows. */
module AgentCost {
  import opened Wrappers
  import opened Collections
  import opened Counts
  import opened ParentLinks
  import opened LaunchLinks
  import opened Transcripts
  import opened SkillWindows
  import opened AgentTree
  import opened AgentTally
  import opened AgentRequestCost
  import opened AgentDescendants
  import opened AgentForest
  import opened AgentProvider

  datatype CostScope = CostScope(cost: Reading, requestLines: seq<int>)

  datatype DescendantTotal = DescendantTotal(childAgentIds: seq<string>, cost: Reading)

  datatype SkillCost = SkillCost(skill: string, deliveryLine: int, own: CostScope, includingDescendants: DescendantTotal)

  datatype AgentCostRow = AgentCostRow(
    owner: Owner,
    own: CostScope,
    skills: seq<SkillCost>,
    shared: CostScope,
    unattributed: CostScope,
    includingDescendants: DescendantTotal,
    provider: ProviderCost)

  datatype ModelCost = ModelCost(model: string, reportedUsd: Option<real>, calculated: Reading)

  datatype CostAllocation =
    | NotAvailable(reasons: seq<string>)
    | CostAllocation(calculated: Reading, root: AgentCostRow, agents: seq<AgentCostRow>, byModel: seq<ModelCost>)

  // ---- who takes part

  function TakesPartIn(agent: SubAgent, files: map<string, SubagentFile>): bool {
    agent.evidence.Available? && agent.context != Inherited && agent.agentId in files
  }

  ghost function SubParticipants(agents: seq<SubAgent>, files: map<string, SubagentFile>): seq<Participant> {
    if agents == [] then []
    else
      SubParticipants(agents[..|agents| - 1], files)
      + var last := agents[|agents| - 1];
        if TakesPartIn(last, files)
        then [Participant(Agent(last.agentId), last.evidence.series, files[last.agentId].transcript, 0)] else []
  }

  ghost function ParticipantsOf(input: TreeInput, tree: Tree): seq<Participant> {
    [Participant(Root, tree.rootSeries, input.transcript,
                 if input.prefixLinesExcluded.Some? then input.prefixLinesExcluded.value else 0)]
    + SubParticipants(tree.agents, FilesOf(input.subagents))
  }

  ghost function OwnersOf(participants: seq<Participant>): seq<Owner> {
    seq(|participants|, i requires 0 <= i < |participants| => participants[i].owner)
  }

  ghost function AllocationsOf(participants: seq<Participant>, readers: Readers): map<Owner, Allocation> {
    if participants == [] then map[]
    else
      var last := participants[|participants| - 1];
      AllocationsOf(participants[..|participants| - 1], readers)[last.owner := Allocate(last, readers)]
  }

  ghost function WorldOf(input: TreeInput, readers: Readers): World {
    var tree := AgentTreeOf(input);
    var participants := ParticipantsOf(input, tree);
    World(tree.agents, OwnersOf(participants), AllocationsOf(participants, readers))
  }

  lemma {:induction false} AllocationKeys(participants: seq<Participant>, readers: Readers)
    ensures AllocationsOf(participants, readers).Keys == Elements(OwnersOf(participants))
  {
    if participants != [] {
      var n := |participants| - 1;
      AllocationKeys(participants[..n], readers);
      assert OwnersOf(participants) == OwnersOf(participants[..n]) + [participants[n].owner];
      ElementsSnoc(OwnersOf(participants[..n]), participants[n].owner);
      hide Allocate, OwnersOf, Elements;
    }
  }

  lemma {:induction false} AllocationsListed(participants: seq<Participant>, readers: Readers)
    requires forall p :: p in participants ==> LinesAscend(p.lines)
    ensures forall o :: o in AllocationsOf(participants, readers) ==> WellFormed(AllocationsOf(participants, readers)[o])
  {
    if participants != [] {
      var n := |participants| - 1;
      AllocationsListed(participants[..n], readers);
      assert participants[n] in participants;
      AllocateWellFormed(participants[n], readers);
      hide WellFormed, LinesAscend, Allocate;
    }
  }

  lemma {:induction false} SubParticipantsListed(agents: seq<SubAgent>, files: map<string, SubagentFile>)
    requires UniqueIds(agents)
    ensures var owners := OwnersOf(SubParticipants(agents, files));
      && NoRepeats(owners)
      && forall o :: o in owners ==> o.Agent? && exists i :: 0 <= i < |agents| && TakesPart(agents[i], o.id)
  {
    if agents != [] {
      var n := |agents| - 1;
      var front, last := agents[..n], agents[n];
      SubParticipantsListed(front, files);
      var owners, before := OwnersOf(SubParticipants(agents, files)), OwnersOf(SubParticipants(front, files));
      assert owners == before + if TakesPartIn(last, files) then [Agent(last.agentId)] else [];
      forall o | o in owners ensures o.Agent? && exists i :: 0 <= i < |agents| && TakesPart(agents[i], o.id) {
        if o in before {
          var i :| 0 <= i < |front| && TakesPart(front[i], o.id);
          assert TakesPart(agents[i], o.id);
        } else {
          assert TakesPart(agents[n], o.id);
        }
      }
      if TakesPartIn(last, files) {
        forall k | 0 <= k < |before| ensures before[k] != Agent(last.agentId) {
          assert before[k] in before;
        }
      }
    }
  }

  ghost predicate RowsAscend(input: TreeInput) {
    LinesAscend(input.transcript) && forall file :: file in input.subagents ==> LinesAscend(file.transcript)
  }

  lemma {:induction false} FilesFromInput(subagents: seq<SubagentFile>)
    ensures forall id :: id in FilesOf(subagents) ==> FilesOf(subagents)[id] in subagents
  {
    if subagents != [] {
      FilesFromInput(subagents[..|subagents| - 1]);
    }
  }

  lemma {:induction false} SubParticipantsAscend(agents: seq<SubAgent>, files: map<string, SubagentFile>)
    requires forall id :: id in files ==> LinesAscend(files[id].transcript)
    ensures forall p :: p in SubParticipants(agents, files) ==> LinesAscend(p.lines)
  {
    if agents != [] {
      SubParticipantsAscend(agents[..|agents| - 1], files);
    }
  }

  lemma OwnersOfCons(first: Participant, rest: seq<Participant>)
    ensures OwnersOf([first] + rest) == [first.owner] + OwnersOf(rest)
  {
  }

  lemma ParticipantOwners(input: TreeInput, readers: Readers)
    ensures var w := WorldOf(input, readers);
      && w.order == [Root] + OwnersOf(SubParticipants(w.agents, FilesOf(input.subagents)))
      && w.agents == AgentsOf(input)
  {
    var subs := SubParticipants(AgentsOf(input), FilesOf(input.subagents));
    var participants := ParticipantsOf(input, AgentTreeOf(input));
    assert participants == [participants[0]] + subs;
    OwnersOfCons(participants[0], subs);
    hide AgentTreeOf, AgentsOf, SubParticipants, AllocationsOf, FilesOf, OwnersOf;
  }

  lemma AllocationsWellFormed(input: TreeInput, readers: Readers)
    requires RowsAscend(input)
    ensures var w := WorldOf(input, readers);
      w.allocations.Keys == Elements(w.order) && forall o :: o in w.allocations ==> WellFormed(w.allocations[o])
  {
    hide WellFormed, SubParticipants, FilesOf, AgentTreeOf;
    var tree := AgentTreeOf(input);
    FilesFromInput(input.subagents);
    SubParticipantsAscend(tree.agents, FilesOf(input.subagents));
    AllocationKeys(ParticipantsOf(input, tree), readers);
    AllocationsListed(ParticipantsOf(input, tree), readers);
  }

  lemma ValidFromParts(w: World, subs: seq<Owner>)
    requires UniqueIds(w.agents) && w.order == [Root] + subs && w.allocations.Keys == Elements(w.order)
    requires NoRepeats(subs)
    requires forall o :: o in subs ==> o.Agent? && exists i :: 0 <= i < |w.agents| && TakesPart(w.agents[i], o.id)
    ensures w.Valid()
  {
    assert forall k :: 0 <= k < |subs| ==> subs[k] in subs;
    assert w.order[0] in Elements(w.order);
    forall id | Agent(id) in w.allocations ensures exists i :: 0 <= i < |w.agents| && TakesPart(w.agents[i], id) {
      assert Agent(id) in Elements(w.order);
      assert Agent(id) in subs;
    }
  }

  /** Every tree and its participants satisfy what the totals and sums rely on. */
  lemma WorldIsValid(input: TreeInput, readers: Readers)
    requires RowsAscend(input)
    ensures var w := WorldOf(input, readers);
      w.Valid() && forall o :: o in w.allocations ==> WellFormed(w.allocations[o])
  {
    AllocationsWellFormed(input, readers);
    ParticipantOwners(input, readers);
    TreeHoldsEveryAgentOnce(input);
    hide *;
    var w := WorldOf(input, readers);
    SubParticipantsListed(w.agents, FilesOf(input.subagents));
    ValidFromParts(w, OwnersOf(SubParticipants(w.agents, FilesOf(input.subagents))));
  }

  // ---- one agent's row

  /** The window its launching request fell in, for a child whose launch call was located. */
  function LaunchPlace(a: Allocation, child: SubAgent): Option<Place> {
    if child.launchCallLine.None? then None
    else
      var request := a.requestOf.Locate(child.launchCallLine.value);
      if request.None? || request.value !in a.windowByRequest then None
      else Some(a.windowByRequest[request.value])
  }

  function LaunchedIn(a: Allocation, children: seq<SubAgent>, window: nat): set<SubAgent> {
    set c | c in children && LaunchPlace(a, c) == Some(Inside(window))
  }

  function Launched(a: Allocation, children: seq<SubAgent>, window: nat): seq<SubAgent> {
    Where(children, LaunchedIn(a, children, window))
  }

  function SkillTally(a: Allocation, children: seq<SubAgent>, totals: map<Owner, Tally>, window: nat): Tally {
    DescendantTally(TallyWhere(a, {Inside(window)}), Launched(a, children, window), totals)
  }

  function TotalReading(total: Tally, children: seq<SubAgent>): DescendantTotal {
    DescendantTotal(seq(|children|, i requires 0 <= i < |children| => children[i].agentId), ReadingOf(total))
  }

  function SkillCosts(a: Allocation, children: seq<SubAgent>, totals: map<Owner, Tally>, windows: seq<nat>): seq<SkillCost>
    requires forall i :: i in windows ==> i < |a.windows| && |a.windows[i].invocations| == 1
  {
    if windows == [] then []
    else
      var window := windows[0];
      assert window in windows;
      assert forall i :: i in windows[1..] ==> i in windows;
      var invocation := a.windows[window].invocations[0];
      [SkillCost(
        invocation.skill, invocation.deliveryLine,
        CostScope(ReadingOf(TallyWhere(a, {Inside(window)})), LinesWhere(a, {Inside(window)})),
        TotalReading(SkillTally(a, children, totals, window), Launched(a, children, window)))]
      + SkillCosts(a, children, totals, windows[1..])
  }

  ghost function RowOf(ledger: Ledger, totals: map<Owner, Tally>, owner: Owner): AgentCostRow
    requires owner in ledger.world.allocations && owner in totals
  {
    var a := ledger.world.allocations[owner];
    var children := ChildrenOf(owner, ledger.world.agents);
    SingleWindowsListed(a.windows);
    AgentCostRow(
      owner,
      CostScope(ReadingOf(OwnTally(a)), a.requestLines),
      SkillCosts(a, children, totals, SingleWindows(a.windows)),
      CostScope(ReadingOf(TallyWhere(a, SharedWindows(a))), LinesWhere(a, SharedWindows(a))),
      CostScope(ReadingOf(TallyWhere(a, {Outside})), LinesWhere(a, {Outside})),
      TotalReading(totals[owner], children),
      ProviderCostOf(ledger, owner))
  }

  /** What a row shows of the agent's tallies. */
  lemma RowShows(ledger: Ledger, totals: map<Owner, Tally>, o: Owner)
    requires o in ledger.world.allocations && o in totals
    ensures var row, a := RowOf(ledger, totals, o), ledger.world.allocations[o];
      && row.owner == o
      && row.includingDescendants.cost.costUsd == totals[o].costUsd
      && row.own == CostScope(ReadingOf(OwnTally(a)), a.requestLines)
      && row.shared == CostScope(ReadingOf(TallyWhere(a, SharedWindows(a))), LinesWhere(a, SharedWindows(a)))
      && row.unattributed == CostScope(ReadingOf(TallyWhere(a, {Outside})), LinesWhere(a, {Outside}))
      && (forall i :: i in SingleWindows(a.windows) ==> i < |a.windows| && |a.windows[i].invocations| == 1)
      && row.skills == SkillCosts(a, ChildrenOf(o, ledger.world.agents), totals, SingleWindows(a.windows))
  {
    SingleWindowsListed(ledger.world.allocations[o].windows);
    var total := totals[o];
    assert ReadingOf(total).costUsd == total.costUsd;
    hide ReadingOf, ProviderCostOf, SkillCosts, SingleWindows, SharedWindows, TallyWhere, LinesWhere, OwnTally, ChildrenOf;
  }

  ghost function SkillCount(a: Allocation, children: seq<SubAgent>, totals: map<Owner, Tally>): nat -> Count {
    (i: nat) => SkillTally(a, children, totals, i).Value()
  }

  ghost function LaunchedCount(a: Allocation, children: seq<SubAgent>, totals: map<Owner, Tally>): nat -> Count {
    (i: nat) => SumWhere(children, LaunchedIn(a, children, i), ChildCount(totals))
  }

  ghost function LaunchSets(a: Allocation, children: seq<SubAgent>, windows: seq<nat>): seq<set<SubAgent>> {
    seq(|windows|, i requires 0 <= i < |windows| => LaunchedIn(a, children, windows[i]))
  }

  lemma {:induction false} LaunchedAddUp(a: Allocation, children: seq<SubAgent>, totals: map<Owner, Tally>, windows: seq<nat>)
    ensures Sum(windows, LaunchedCount(a, children, totals))
         == SumOfSets(children, LaunchSets(a, children, windows), ChildCount(totals))
  {
    hide ChildCount, LaunchedIn, SumWhere;
    if windows != [] {
      LaunchedAddUp(a, children, totals, windows[1..]);
      assert LaunchSets(a, children, windows)[1..] == LaunchSets(a, children, windows[1..]);
    }
  }

  lemma SkillsAddUp(a: Allocation, children: seq<SubAgent>, totals: map<Owner, Tally>, windows: seq<nat>)
    ensures Sum(windows, SkillCount(a, children, totals))
         == Sum(windows, WindowCount(a)).Plus(Sum(windows, LaunchedCount(a, children, totals)))
  {
    forall i: nat | i in windows
      ensures SkillCount(a, children, totals)(i) == WindowCount(a)(i).Plus(LaunchedCount(a, children, totals)(i))
    {
      DescendantTallyCounts(TallyWhere(a, {Inside(i)}), Launched(a, children, i), totals);
    }
    SumPlus(windows, WindowCount(a), LaunchedCount(a, children, totals), SkillCount(a, children, totals));
  }

  /** The children no single-skill window's total includes. */
  ghost function LaunchedElsewhere(a: Allocation, children: seq<SubAgent>): seq<SubAgent> {
    Where(children, Elements(children) - UnionOf(LaunchSets(a, children, SingleWindows(a.windows))))
  }

  lemma ElsewhereMeans(a: Allocation, children: seq<SubAgent>, c: SubAgent)
    ensures c in LaunchedElsewhere(a, children) <==>
      && c in children
      && forall i: nat :: LaunchPlace(a, c) == Some(Inside(i)) ==> i >= |a.windows| || |a.windows[i].invocations| != 1
  {
    var singles := SingleWindows(a.windows);
    var sets := LaunchSets(a, children, singles);
    WhereElements(children, Elements(children) - UnionOf(sets));
    UnionMember(sets, c);
    SingleWindowsListed(a.windows);
    assert c in LaunchedElsewhere(a, children) <==> c in Elements(LaunchedElsewhere(a, children));
    if i: nat :| LaunchPlace(a, c) == Some(Inside(i)) && i < |a.windows| && |a.windows[i].invocations| == 1 && c in children {
      var k :| 0 <= k < |singles| && singles[k] == i;
      assert c in sets[k];
    }
    if c in UnionOf(sets) {
      var k :| 0 <= k < |sets| && c in sets[k];
      assert singles[k] in singles;
    }
  }

  lemma ChildrenSplitByLaunch(a: Allocation, children: seq<SubAgent>, totals: map<Owner, Tally>)
    ensures Sum(SingleWindows(a.windows), LaunchedCount(a, children, totals))
        .Plus(Sum(LaunchedElsewhere(a, children), ChildCount(totals)))
      == Sum(children, ChildCount(totals))
  {
    var singles := SingleWindows(a.windows);
    var sets := LaunchSets(a, children, singles);
    SingleWindowsListed(a.windows);
    LaunchedAddUp(a, children, totals, singles);
    SumOfDisjointSets(children, sets, ChildCount(totals));
    var rest := Elements(children) - UnionOf(sets);
    SumWhereUnion(children, UnionOf(sets), rest, ChildCount(totals));
    WhereAll(children, UnionOf(sets) + rest);
  }

  /**
   * In any row, the skills including descendants, the shared and the unattributed remainder and
   * the children launched elsewhere are the agent's own count and all its children's totals.
   */
  lemma RowAddsUp(a: Allocation, children: seq<SubAgent>, totals: map<Owner, Tally>)
    requires WellFormed(a)
    ensures PartsOfRow(a, children, totals) == OwnTally(a).Value().Plus(Sum(children, ChildCount(totals)))
  {
    var singles := SingleWindows(a.windows);
    SkillsAddUp(a, children, totals, singles);
    ChildrenSplitByLaunch(a, children, totals);
    WindowsPartitionOwn(a);
    Rearrange(
      Sum(singles, WindowCount(a)), Sum(singles, LaunchedCount(a, children, totals)),
      TallyWhere(a, SharedWindows(a)).Value(), TallyWhere(a, {Outside}).Value(),
      Sum(LaunchedElsewhere(a, children), ChildCount(totals)));
  }

  ghost function PartsOfRow(a: Allocation, children: seq<SubAgent>, totals: map<Owner, Tally>): Count {
    Sum(SingleWindows(a.windows), SkillCount(a, children, totals))
      .Plus(TallyWhere(a, SharedWindows(a)).Value())
      .Plus(TallyWhere(a, {Outside}).Value())
      .Plus(Sum(LaunchedElsewhere(a, children), ChildCount(totals)))
  }

  lemma Rearrange(w: Count, l: Count, s: Count, u: Count, e: Count)
    ensures w.Plus(l).Plus(s).Plus(u).Plus(e) == w.Plus(s).Plus(u).Plus(l.Plus(e))
  {
    var all := w.reasons + l.reasons + s.reasons + u.reasons + e.reasons;
    assert w.Plus(l).Plus(s).Plus(u).Plus(e).reasons == all;
    assert w.Plus(s).Plus(u).Plus(l.Plus(e)).reasons == all;
  }

  /** Outside a loop those parts are the agent's total including descendants. */
  lemma SkillsAddUpToTotal(w: World, o: Owner)
    requires w.Valid() && o in w.allocations && WellFormed(w.allocations[o]) && !Loops(w.Links(), o)
    ensures PartsOfRow(w.allocations[o], ChildrenOf(o, w.agents), TotalsOf(w)) == TotalsOf(w)[o].Value()
  {
    hide Total;
    RowAddsUp(w.allocations[o], ChildrenOf(o, w.agents), TotalsOf(w));
    TotalIsOwnAndChildren(w, o);
  }

  // ---- the whole allocation

  ghost function UnreadableReasons(world: World, owners: seq<Owner>): seq<string> {
    if owners == [] then []
    else
      (if owners[0] in world.allocations then ReasonsWhere(world.allocations[owners[0]].unreadable, AllWindows(world.allocations[owners[0]])) else [])
      + UnreadableReasons(world, owners[1..])
  }

  ghost function LedgerOf(input: TreeInput, readers: Readers, usage: ModelUsage): Ledger {
    var tree := AgentTreeOf(input);
    var w := WorldOf(input, readers);
    Ledger(
      w, ModelsBeforeAttempt(tree),
      exists o :: o in w.allocations && None in w.allocations[o].models,
      usage, tree.unavailableAgentIds == [], UnreadableReasons(w, w.order))
  }

  function MissingReasons(ids: seq<string>): seq<string> {
    seq(|ids|, i requires 0 <= i < |ids| => UnavailableAgentReason(ids[i]))
  }

  ghost function OwnTallies(w: World, owners: seq<Owner>): seq<Tally>
    requires forall o :: o in owners ==> o in w.allocations
  {
    seq(|owners|, i requires 0 <= i < |owners| => OwnTally(w.allocations[owners[i]]))
  }

  ghost function CalculatedTally(w: World, missing: seq<string>): Tally
    requires w.Valid()
  {
    assert forall o :: o in w.order ==> o in Elements(w.order);
    Summed(OwnTallies(w, w.order), missing)
  }

  ghost function RowsOf(ledger: Ledger, totals: map<Owner, Tally>, owners: seq<Owner>): seq<AgentCostRow>
    requires forall o :: o in owners ==> o in ledger.world.allocations && o in totals
  {
    seq(|owners|, i requires 0 <= i < |owners| => RowOf(ledger, totals, owners[i]))
  }

  ghost function ModelRows(ledger: Ledger, missing: seq<string>): seq<ModelCost>
    requires ledger.Valid()
  {
    var models := RowModels(ledger);
    seq(|models|, i requires 0 <= i < |models| =>
      ModelCost(
        models[i],
        if models[i] in ledger.modelUsage.costUsd then Some(ledger.modelUsage.costUsd[models[i]]) else None,
        ReadingOf(RowTally(ledger, missing, models[i]))))
  }

  ghost function AllocateCost(input: TreeInput, readers: Readers, usage: ModelUsage): CostAllocation
    requires RowsAscend(input) && usage.Valid()
  {
    var tree := AgentTreeOf(input);
    if !tree.rootSeries.boundaryKnown then NotAvailable(["the transcript carries no attempt boundary"])
    else
      WorldIsValid(input, readers);
      var ledger := LedgerOf(input, readers, usage);
      var w := ledger.world;
      var totals := TotalsOf(w);
      var missing := MissingReasons(tree.unavailableAgentIds);
      OrderListsAllocations(w);
      assert w.order[0] == Root;
      CostAllocation(
        ReadingOf(CalculatedTally(w, missing)),
        RowOf(ledger, totals, Root),
        RowsOf(ledger, totals, w.order[1..]),
        ModelRows(ledger, missing))
  }

  lemma OrderListsAllocations(w: World)
    requires w.Valid()
    ensures forall o :: o in w.order <==> o in w.allocations
    ensures w.order != []
  {
    assert forall o :: o in w.order <==> o in Elements(w.order);
  }

  lemma {:induction false} OwnTalliesAddUp(w: World, owners: seq<Owner>)
    requires forall o :: o in owners ==> o in w.allocations
    ensures Sum(OwnTallies(w, owners), TallyValue()) == Sum(owners, OwnCount(w))
  {
    if owners != [] {
      assert owners[0] in owners;
      OwnTalliesAddUp(w, owners[1..]);
      assert OwnTallies(w, owners)[1..] == OwnTallies(w, owners[1..]);
    }
  }

  lemma CalculatedCounts(w: World, missing: seq<string>)
    requires w.Valid()
    ensures CalculatedTally(w, missing).Value() == Sum(w.order, OwnCount(w)).Plus(ReasonOnly(Elements(missing)))
  {
    OrderListsAllocations(w);
    SummedAddsUp(OwnTallies(w, w.order), missing);
    OwnTalliesAddUp(w, w.order);
    PlusCommutes(ReasonOnly(Elements(missing)), Sum(w.order, OwnCount(w)));
  }

  /**
   * The calculated cost over every request is the totals of the tops and the own counts of the
   * looping agents, beside the reasons of the agents without a transcript.
   */
  lemma CalculatedIsTheForest(w: World, missing: seq<string>)
    requires w.Valid() && MissingAnywhere(w) <= Elements(missing)
    ensures CalculatedTally(w, missing).Value()
         == Sum(Tops(w), TotalCount(w)).Plus(Sum(Looping(w), OwnCount(w))).Plus(ReasonOnly(Elements(missing)))
  {
    CalculatedCounts(w, missing);
    ForestConserved(w, Elements(missing));
  }

  /** The same cost by model: the rows and the entries without one, beside the reasons of unreadable lines. */
  lemma CalculatedIsTheModels(ledger: Ledger, missing: seq<string>)
    requires ledger.Valid() && LinesDistinct(ledger.world)
    ensures CalculatedTally(ledger.world, missing).Value()
         == ReasonOnly(UnreadableAnywhere(ledger.world))
              .Plus(Sum(RowModels(ledger), RowCount(ledger))
                      .Plus(Sum(ledger.world.order, OffRowPart(ledger.world, RowModels(ledger)))))
              .Plus(ReasonOnly(Elements(missing)))
  {
    CalculatedCounts(ledger.world, missing);
    ByModelAddsUp(ledger);
  }

  // ---- which reasons the calculated cost carries

  lemma {:induction false} UnavailableListed(agents: seq<SubAgent>, c: SubAgent)
    requires c in agents && c.evidence.Unavailable? && c.context != Inherited
    ensures c.agentId in UnavailableIds(agents)
  {
    if agents[0] != c {
      UnavailableListed(agents[1..], c);
    }
  }

  lemma {:induction false} ParticipantListed(agents: seq<SubAgent>, files: map<string, SubagentFile>, c: SubAgent)
    requires c in agents && TakesPartIn(c, files)
    ensures Agent(c.agentId) in OwnersOf(SubParticipants(agents, files))
  {
    var n := |agents| - 1;
    var owners := OwnersOf(SubParticipants(agents, files));
    assert owners == OwnersOf(SubParticipants(agents[..n], files))
      + if TakesPartIn(agents[n], files) then [Agent(agents[n].agentId)] else [];
    if agents[n] != c {
      ParticipantListed(agents[..n], files, c);
    }
  }

  lemma AvailableHasAFile(input: TreeInput, c: SubAgent)
    requires c in AgentsOf(input) && c.evidence.Available?
    ensures c.agentId in FilesOf(input.subagents)
  {
    FilesOfKeys(input.subagents);
    var agents, ids := AgentsOf(input), AgentIds(input);
    var i :| 0 <= i < |agents| && agents[i] == c;
    assert c == AgentAt(input, ids[i]);
  }

  lemma AvailableTakesPart(input: TreeInput, readers: Readers, c: SubAgent)
    requires RowsAscend(input) && c in AgentsOf(input) && c.evidence.Available? && c.context != Inherited
    ensures Agent(c.agentId) in WorldOf(input, readers).allocations
  {
    var w := WorldOf(input, readers);
    ParticipantOwners(input, readers);
    AllocationsWellFormed(input, readers);
    AvailableHasAFile(input, c);
    hide WorldOf, AgentsOf, FilesOf, WellFormed, SubParticipants, OwnersOf;
    ParticipantListed(w.agents, FilesOf(input.subagents), c);
    assert Agent(c.agentId) in Elements(w.order);
  }

  /** A child without a tally is an agent the tree lists as unavailable. */
  lemma MissingAreUnavailable(input: TreeInput, readers: Readers)
    requires RowsAscend(input)
    ensures MissingAnywhere(WorldOf(input, readers)) <= Elements(MissingReasons(UnavailableIds(AgentsOf(input))))
  {
    var w, ids := WorldOf(input, readers), UnavailableIds(AgentsOf(input));
    assert w.agents == AgentsOf(input);
    hide WorldOf, AgentsOf, UnavailableIds;
    forall o, c | o in w.allocations && c in ChildrenOf(o, w.agents) && Agent(c.agentId) !in w.allocations
      ensures UnavailableAgentReason(c.agentId) in MissingReasons(ids)
    {
      ChildrenListed(o, w.agents);
      assert c.evidence.Unavailable? by {
        if c.evidence.Available? {
          AvailableTakesPart(input, readers, c);
        }
      }
      UnavailableListed(w.agents, c);
      var k :| 0 <= k < |ids| && ids[k] == c.agentId;
      assert MissingReasons(ids)[k] == UnavailableAgentReason(c.agentId);
    }
  }

  // ---- which lines the requests are on

  ghost predicate EntriesAscend(series: Series) {
    forall i, j :: 0 <= i < j < |series.entries| ==> series.entries[i].line < series.entries[j].line
  }

  lemma {:induction false} AttemptLinesAscend(entries: seq<RequestEntry>)
    requires forall i, j :: 0 <= i < j < |entries| ==> entries[i].line < entries[j].line
    ensures forall e :: e in AttemptEntries(entries) ==> e in entries
    ensures NoRepeats(EntryLines(AttemptEntries(entries)))
  {
    if entries != [] {
      AttemptLinesAscend(entries[1..]);
      var rest := AttemptEntries(entries[1..]);
      forall k | 0 <= k < |rest| ensures entries[0].line < rest[k].line {
        assert rest[k] in entries[1..];
        var j :| 0 <= j < |entries[1..]| && entries[1..][j] == rest[k];
        assert entries[j + 1] == rest[k];
      }
      if entries[0].region == Attempt {
        assert AttemptEntries(entries) == [entries[0]] + rest;
        assert EntryLines(AttemptEntries(entries)) == [entries[0].line] + EntryLines(rest);
      } else {
        assert AttemptEntries(entries) == rest;
      }
    }
  }

  lemma {:induction false} AllocationsDistinct(participants: seq<Participant>, readers: Readers)
    requires forall p :: p in participants ==> EntriesAscend(p.series)
    ensures forall o :: o in AllocationsOf(participants, readers) ==>
      NoRepeats(EntryLines(AllocationsOf(participants, readers)[o].attemptEntries))
  {
    if participants != [] {
      var n := |participants| - 1;
      AllocationsDistinct(participants[..n], readers);
      assert participants[n] in participants;
      AttemptLinesAscend(participants[n].series.entries);
      assert Allocate(participants[n], readers).attemptEntries == AttemptEntries(participants[n].series.entries);
      hide Allocate, EntriesAscend, AttemptEntries, EntryLines;
    }
  }

  lemma {:induction false} SubParticipantSeries(agents: seq<SubAgent>, files: map<string, SubagentFile>)
    requires forall agent :: agent in agents && agent.evidence.Available? ==> EntriesAscend(agent.evidence.series)
    ensures forall p :: p in SubParticipants(agents, files) ==> EntriesAscend(p.series)
  {
    hide EntriesAscend;
    if agents != [] {
      assert agents[|agents| - 1] in agents;
      SubParticipantSeries(agents[..|agents| - 1], files);
    }
  }

  lemma SeriesOfItsFile(input: TreeInput, agent: SubAgent) returns (file: SubagentFile)
    requires agent in AgentsOf(input) && agent.evidence.Available?
    ensures file in input.subagents
    ensures agent.evidence.series == file.attemptSeries || agent.evidence.series == file.prefixSeries
  {
    AvailableHasAFile(input, agent);
    FilesFromInput(input.subagents);
    var agents, ids := AgentsOf(input), AgentIds(input);
    var i :| 0 <= i < |agents| && agents[i] == agent;
    FilesOfKeys(input.subagents);
    assert agent == AgentAt(input, ids[i]);
    hide AgentsOf, AgentIds, FilesOf, LinksOf, IsInherited, FileIds;
    file := FilesOf(input.subagents)[agent.agentId];
  }

  lemma AgentSeries(input: TreeInput, agent: SubAgent)
    requires AsRead(input) && agent in AgentsOf(input) && agent.evidence.Available?
    ensures EntriesAscend(agent.evidence.series)
  {
    var file := SeriesOfItsFile(input, agent);
    hide AgentsOf;
    var rows: nat :| FileOfRows(file, rows, input.prefixLinesExcluded);
  }

  /** No allocation lists a line twice: each request is opened by a row of its own. */
  lemma LinesAreDistinct(input: TreeInput, readers: Readers)
    requires AsRead(input)
    ensures LinesDistinct(WorldOf(input, readers))
  {
    var participants := ParticipantsOf(input, AgentTreeOf(input));
    forall agent | agent in AgentsOf(input) && agent.evidence.Available? ensures EntriesAscend(agent.evidence.series) {
      AgentSeries(input, agent);
    }
    SubParticipantSeries(AgentsOf(input), FilesOf(input.subagents));
    assert EntriesAscend(input.rootSeries);
    assert AgentTreeOf(input).rootSeries == input.rootSeries && AgentTreeOf(input).agents == AgentsOf(input);
    hide EntriesAscend, AsRead, AgentTreeOf, SubParticipants, AgentsOf, FilesOf, EntryLines;
    assert forall p :: p in participants ==> EntriesAscend(p.series);
    AllocationsDistinct(participants, readers);
  }
}
