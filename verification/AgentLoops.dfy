/** What the rows of agents say whose parent links run in a circle. */
module AgentLoops {
  import opened Wrappers
  import opened Collections
  import opened Ordering
  import opened Counts
  import opened ParentLinks
  import opened LaunchLinks
  import opened Transcripts
  import opened SkillWindows
  import opened AgentTree
  import opened AgentTally
  import opened AgentRequestCost
  import opened AgentDescendants
  import opened AgentForest
  import opened AgentProvider
  import opened AgentCost

  // ---- when the skills still add up

  /** A looping agent's own count: as many requests as it has request lines, and nothing without any. */
  lemma OwnRequests(w: World, o: Owner)
    requires o in w.allocations && WellFormed(w.allocations[o])
    ensures OwnCount(w)(o).requests == |w.allocations[o].requestLines|
    ensures w.allocations[o].requestLines == [] ==> OwnCount(w)(o).Amount() == ZERO
  {
    var a := w.allocations[o];
    var reasons := ReasonOnly(set each | each in a.unreadable :: each.reason);
    OwnTallyCountsEverything(a);
    SumRequests(a.requestLines, a.costs);
    hide LineCount, OwnTally, WellFormed;
    AmountPlus(reasons, Sum(a.requestLines, LineCount(a.costs)));
  }

  ghost predicate MadeARequest(w: World, c: SubAgent) {
    Agent(c.agentId) in w.allocations && w.allocations[Agent(c.agentId)].requestLines != []
  }

  lemma LoopingCount(w: World, o: Owner)
    requires w.Valid() && o in w.allocations && Loops(w.Links(), o) && WellFormed(w.allocations[o])
    ensures var count := Total(w, o).Value();
      ByRequest(count) && count.requests == |w.allocations[o].requestLines|
  {
    hide Total, WellFormed;
    TotalInALoop(w, o);
    OwnRequests(w, o);
    AmountPlus(OwnCount(w)(o), ReasonOnly({LoopReason(o.id)}));
  }

  /** Every child of a looping owner loops, so its total counts its own requests only. */
  lemma ChildInALoop(w: World, o: Owner, i: nat)
    requires w.Valid() && o in w.allocations && Loops(w.Links(), o) && i < |ChildrenOf(o, w.agents)|
    requires forall p :: p in w.allocations ==> WellFormed(w.allocations[p])
    ensures var c := ChildrenOf(o, w.agents)[i];
      var count := ChildCount(TotalsOf(w))(c);
      ByRequest(count) && (count.requests == 0 <==> !MadeARequest(w, c))
  {
    var c := ChildrenOf(o, w.agents)[i];
    var child := Agent(c.agentId);
    ChildLinksUp(w, o, c);
    if child in w.allocations {
      var j := LinkedIsChild(w, o, child);
      ChildrenListed(o, w.agents);
      assert j == i;
      LoopsAbove(w.Links(), child, o);
      LoopingCount(w, child);
      hide Total, WellFormed, ByRequest, Loops, ChildrenOf;
    }
  }

  /**
   * In a loop the total leaves the children out while the parts still count them, so the two agree
   * exactly when no child of the agent that takes part made a request.
   */
  lemma SkillsInALoop(w: World, o: Owner)
    requires w.Valid() && o in w.allocations && Loops(w.Links(), o)
    requires forall p :: p in w.allocations ==> WellFormed(w.allocations[p])
    ensures PartsOfRow(w.allocations[o], ChildrenOf(o, w.agents), TotalsOf(w)).Amount() == TotalsOf(w)[o].Value().Amount()
      <==> forall c :: c in ChildrenOf(o, w.agents) ==> !MadeARequest(w, c)
  {
    hide Total, WellFormed;
    var children := ChildrenOf(o, w.agents);
    RowAddsUp(w.allocations[o], children, TotalsOf(w));
    TotalInALoop(w, o);
    var own, below := OwnCount(w)(o), Sum(children, ChildCount(TotalsOf(w)));
    AmountCancels(own, below);
    AmountCancels(own, ReasonOnly({LoopReason(o.id)}));
    forall c | c in children
      ensures ByRequest(ChildCount(TotalsOf(w))(c))
      ensures ChildCount(TotalsOf(w))(c).requests == 0 <==> !MadeARequest(w, c)
    {
      var i :| 0 <= i < |children| && children[i] == c;
      ChildInALoop(w, o, i);
    }
    SumIsNothing(children, ChildCount(TotalsOf(w)));
    hide ChildCount, MadeARequest, PartsOfRow;
  }

  // ---- an attempt in which they do not

  const SKILL_ROW := TranscriptLine(1, None, [], [], None, None, ["review"], None)

  const CALL_ROW := TranscriptLine(2, Some("r"), [ToolUse("Agent", Some("t"))], [], None, None, [], None)

  const RESULT_ROW := TranscriptLine(3, None, [], [Some("t")], Some("x"), None, [], None)

  function RequestIn(region: Region): Series {
    Series(true, [RequestEntry(Some("r"), 2, region, Some("m"), CompleteUsage(1, 1))], [])
  }

  const ONE_REQUEST := RequestIn(Attempt)

  /**
   * One sub-agent whose metadata names it as its own parent. It loads a skill, makes one request
   * with a call in it, and the result of that call names the agent itself.
   */
  ghost function SelfParented(): TreeInput {
    TreeInput(
      [], Some(0), Series(true, [], []),
      [SubagentFile(
        "x", [SKILL_ROW, CALL_ROW, RESULT_ROW], AgentMeta(None, Some("x")), false, ONE_REQUEST, RequestIn(StartingContext))])
  }

  lemma SelfParentedAsRead()
    ensures AsRead(SelfParented())
  {
    var input := SelfParented();
    assert ReadFrom(input.rootSeries, 0, Some(0));
    forall file | file in input.subagents ensures exists rows: nat :: FileOfRows(file, rows, Some(0)) {
      assert FileOfRows(file, 3, Some(0));
    }
  }

  ghost function OneEach(): Readers {
    Readers(entry => Priced(1.0), (owner, line) => "", (lines, requestOf) => map[])
  }

  lemma DistinctOne(id: string)
    ensures Distinct([id]) == [id] && Distinct([id] + [id]) == [id] && SortStrings([id]) == [id]
  {
    assert [id][..0] == [] && [id][1..] == [];
    DistinctSnoc([id], id);
    assert SortStrings([id]) == Insert(id, SortStrings([]));
  }

  lemma SelfParentedFiles()
    ensures var files := SelfParented().subagents;
      FileIds(files) == ["x"] && FilesOf(files) == map["x" := files[0]]
    ensures TranscriptsOf(SelfParented()) == [Transcript(Root, []), Transcript(Agent("x"), [SKILL_ROW, CALL_ROW, RESULT_ROW])]
  {
    var files := SelfParented().subagents;
    DistinctOne("x");
    assert seq(|files|, i requires 0 <= i < |files| => files[i].agentId) == ["x"];
    assert files[..0] == [];
    assert FilesOf([]) == map[];
  }

  lemma SelfParentedEvents()
    ensures LineCalls(Agent("x"), [SKILL_ROW, CALL_ROW, RESULT_ROW]) == [Event("t", LaunchCall(Agent("x"), 2, "Agent"))]
    ensures LineResults(Agent("x"), [SKILL_ROW, CALL_ROW, RESULT_ROW]) == [Event("x", NamingResult(Agent("x"), 3, Some("t")))]
  {
    var x := Agent("x");
    OneRowTranscript(x, SKILL_ROW);
    OneUse(x, 2, "Agent", "t");
    RowsSnoc(x, [SKILL_ROW], CALL_ROW);
    RowsSnoc(x, [SKILL_ROW, CALL_ROW], RESULT_ROW);
    assert [SKILL_ROW] + [CALL_ROW] == [SKILL_ROW, CALL_ROW];
    assert [SKILL_ROW, CALL_ROW] + [RESULT_ROW] == [SKILL_ROW, CALL_ROW, RESULT_ROW];
    hide LineCalls, LineResults;
  }

  lemma SelfParentedIndex()
    ensures AllResults(TranscriptsOf(SelfParented())) == [Event("x", NamingResult(Agent("x"), 3, Some("t")))]
    ensures IndexOf(TranscriptsOf(SelfParented())) == LaunchIndex(
      map["t" := LaunchCall(Agent("x"), 2, "Agent")], map["x" := NamingResult(Agent("x"), 3, Some("t"))])
  {
    SelfParentedFiles();
    SelfParentedEvents();
    TwoTranscripts(Transcript(Root, []), Transcript(Agent("x"), [SKILL_ROW, CALL_ROW, RESULT_ROW]));
    OneEvent(Event("t", LaunchCall(Agent("x"), 2, "Agent")));
    OneEvent(Event("x", NamingResult(Agent("x"), 3, Some("t"))));
    assert LineCalls(Root, []) == [] && LineResults(Root, []) == [];
    hide TranscriptsOf, AllCalls, AllResults, LineCalls, LineResults, FirstWins;
  }

  const SELF := SubAgent("x", AgentParent("x", ParentAgentIdBasis), Some(2), NotRecorded, Available(ONE_REQUEST))

  const SELF_LINK := AgentLink(AgentParent("x", ParentAgentIdBasis), Some(Launch(Agent("x"), 3)), Some(2))

  lemma SelfParentedIds()
    ensures AgentIds(SelfParented()) == ["x"]
  {
    SelfParentedFiles();
    SelfParentedIndex();
    DistinctOne("x");
    hide TranscriptsOf, AllResults, FileIds, Distinct, SortStrings;
    assert NamedAgents(AllResults(TranscriptsOf(SelfParented()))) == ["x"];
  }

  lemma SelfParentedLinks()
    ensures LinksOf(SelfParented()) == map["x" := SELF_LINK]
  {
    SelfParentedFiles();
    SelfParentedIndex();
    SelfParentedIds();
    hide TranscriptsOf, FileIds, FilesOf, AgentIds, IndexOf;
  }

  lemma NothingInPrefix(links: map<string, AgentLink>)
    requires links == map["x" := SELF_LINK]
    ensures !IsInherited("x", links, Some(0), {})
  {
    assert !IsInherited("x", links, Some(0), {} + {"x"});
  }

  lemma OneAgentAvailable()
    ensures UnavailableIds([SELF]) == []
  {
    assert [SELF][1..] == [];
  }

  lemma SelfParentedTree()
    ensures AgentTreeOf(SelfParented()) == Tree([SELF], [], Series(true, [], []))
  {
    SelfParentedFiles();
    SelfParentedIds();
    SelfParentedLinks();
    NothingInPrefix(LinksOf(SelfParented()));
    OneAgentAvailable();
    hide FilesOf, AgentIds, LinksOf, IsInherited, UnavailableIds;
    assert AgentAt(SelfParented(), "x") == SELF;
    assert AgentsOf(SelfParented()) == [SELF];
  }

  // ---- its costs

  ghost function Spent(): Allocation {
    Allocation(
      [2], map[2 := Inside(0)], [SkillWindow(1, None, None, [Invocation("review", None, 1)])],
      RequestLocator(map["r" := 2], map[1 := None, 2 := Some("r"), 3 := None]),
      map[2 := Priced(1.0)], ONE_REQUEST.entries, {Some("m")}, [])
  }

  lemma SpentWindows()
    ensures WindowsOf([SKILL_ROW, CALL_ROW, RESULT_ROW], 0, map[]) == [SkillWindow(1, None, None, [Invocation("review", None, 1)])]
  {
    var open := Some(SkillWindow(1, None, None, [Invocation("review", None, 1)]));
    assert [SKILL_ROW, CALL_ROW, RESULT_ROW][..2] == [SKILL_ROW, CALL_ROW];
    assert [SKILL_ROW, CALL_ROW][..1] == [SKILL_ROW] && [SKILL_ROW][..0] == [];
    var delivery := DeliveryAt(SKILL_ROW, map[]);
    assert delivery.Some? && |delivery.value.invocations| == 1;
    assert delivery.value.invocations[0] == Invocation("review", None, 1);
    assert delivery.value.invocations == [Invocation("review", None, 1)];
    assert DeliveryAt(SKILL_ROW, map[]) == Some(Delivery([Invocation("review", None, 1)], None));
    assert Advance(SKILL_ROW, 0, map[], [], None) == ([], open);
    assert StateAfter([], 0, map[]) == ([], None);
    assert StateAfter([SKILL_ROW], 0, map[]) == ([], open);
    assert Advance(CALL_ROW, 0, map[], [], open) == ([], open);
    assert StateAfter([SKILL_ROW, CALL_ROW], 0, map[]) == ([], open);
    assert Advance(RESULT_ROW, 0, map[], [], open) == ([], open);
    assert StateAfter([SKILL_ROW, CALL_ROW, RESULT_ROW], 0, map[]) == ([], open);
  }

  lemma SpentLocator()
    ensures LocatorOf(ONE_REQUEST, [SKILL_ROW, CALL_ROW, RESULT_ROW])
         == RequestLocator(map["r" := 2], map[1 := None, 2 := Some("r"), 3 := None])
  {
    var rows := [SKILL_ROW, CALL_ROW, RESULT_ROW];
    assert rows[..2] == [SKILL_ROW, CALL_ROW] && [SKILL_ROW, CALL_ROW][..1] == [SKILL_ROW] && [SKILL_ROW][..0] == [];
    assert RequestIds([SKILL_ROW]) == map[1 := None];
    assert RequestIds([SKILL_ROW, CALL_ROW]) == map[1 := None, 2 := Some("r")];
    assert RequestIds(rows) == map[1 := None, 2 := Some("r"), 3 := None];
    assert ONE_REQUEST.entries[..0] == [];
    assert FirstLines(ONE_REQUEST.entries) == map["r" := 2];
  }

  lemma SpentIsAllocated()
    ensures Allocate(Participant(Agent("x"), ONE_REQUEST, [SKILL_ROW, CALL_ROW, RESULT_ROW], 0), OneEach()) == Spent()
  {
    SpentWindows();
    SpentLocator();
    hide WindowsOf, LocatorOf;
    var entries := ONE_REQUEST.entries;
    assert entries[1..] == [] && entries[..0] == [];
    assert AttemptEntries(entries) == entries;
    assert EntryLines(entries) == [2];
    assert Distinct([2]) == [2] by {
      assert [2][..0] == [];
    }
    assert CostsOf(entries, OneEach().price) == map[2 := Priced(1.0)];
    assert SpentModels(entries) == {Some("m")};
    assert WindowAt(Spent().windows, 2) == Inside(0);
  }

  const X := Agent("x")

  /** The tree holds the agent alone, and its allocation is the one above. */
  ghost predicate IsItsWorld(w: World) {
    w.Valid() && w.agents == [SELF] && w.order == [Root, X] && X in w.allocations && w.allocations[X] == Spent()
  }

  lemma SelfParentedParticipants()
    ensures ParticipantsOf(SelfParented(), AgentTreeOf(SelfParented()))
         == [Participant(Root, Series(true, [], []), [], 0), Participant(X, ONE_REQUEST, [SKILL_ROW, CALL_ROW, RESULT_ROW], 0)]
  {
    SelfParentedFiles();
    SelfParentedTree();
    hide FilesOf, AgentTreeOf;
    var files := FilesOf(SelfParented().subagents);
    assert [SELF][..0] == [];
    assert SubParticipants([], files) == [];
    assert SubParticipants([SELF], files) == [Participant(X, ONE_REQUEST, [SKILL_ROW, CALL_ROW, RESULT_ROW], 0)];
  }

  lemma TwoParticipants(root: Participant, other: Participant, readers: Readers)
    ensures OwnersOf([root, other]) == [root.owner, other.owner]
    ensures other.owner in AllocationsOf([root, other], readers)
    ensures AllocationsOf([root, other], readers)[other.owner] == Allocate(other, readers)
  {
    hide Allocate;
  }

  lemma SelfParentedWorld()
    ensures RowsAscend(SelfParented())
    ensures IsItsWorld(WorldOf(SelfParented(), OneEach()))
  {
    assert RowsAscend(SelfParented());
    WorldIsValid(SelfParented(), OneEach());
    SelfParentedTree();
    SelfParentedParticipants();
    SpentIsAllocated();
    TwoParticipants(
      Participant(Root, Series(true, [], []), [], 0), Participant(X, ONE_REQUEST, [SKILL_ROW, CALL_ROW, RESULT_ROW], 0), OneEach());
    hide ParticipantsOf, AgentTreeOf, Allocate, AllocationsOf, OwnersOf, Spent, RowsAscend;
  }

  lemma {:induction false} SelfClimb(w: World, k: nat)
    requires IsItsWorld(w)
    ensures Climb(w.Links(), X, k) == Some(X)
  {
    if k > 0 {
      SelfClimb(w, k - 1);
      ParentsOfUnique(w.agents);
      assert w.agents[0].agentId == "x";
    }
  }

  lemma SelfLoops(w: World)
    requires IsItsWorld(w)
    ensures Loops(w.Links(), X)
  {
    forall k: nat ensures Climb(w.Links(), X, k).Some? {
      SelfClimb(w, k);
    }
  }

  lemma SpentKept(keep: set<Place>)
    requires Inside(0) in keep
    ensures TallyWhere(Spent(), keep).costUsd == 1.0
  {
    var a := Spent();
    assert LinesIn(a, keep) == {2};
    WhereAll([2], {2});
    var part := TallyOf([2], a.costs);
    assert part == AddLine(TallyOf([2][..0], a.costs), 2, a.costs);
    assert TotalCost([part]) == part.costUsd + TotalCost([part][1..]);
  }

  lemma OneTotal(own: Tally, missing: seq<string>)
    ensures Summed([own], missing).costUsd == own.costUsd
  {
    assert TotalCost([own]) == own.costUsd + TotalCost([own][1..]);
  }

  lemma SelfTotal(w: World)
    requires IsItsWorld(w)
    ensures TotalsOf(w)[X].costUsd == 1.0
  {
    SelfLoops(w);
    LoopingTotal(w, X);
    SpentKept(AllWindows(Spent()));
    OneTotal(OwnTally(Spent()), [LoopReason("x")]);
    hide Total, Summed, TallyWhere, Spent;
  }

  lemma SelfLaunch(w: World, totals: map<Owner, Tally>)
    requires IsItsWorld(w) && X in totals
    ensures ChildrenOf(X, w.agents) == [SELF]
    ensures SkillTally(Spent(), [SELF], totals, 0).costUsd == 1.0 + totals[X].costUsd
  {
    var a := Spent();
    assert LaunchPlace(a, SELF) == Some(Inside(0));
    assert LaunchedIn(a, [SELF], 0) == {SELF} by {
      assert SELF in [SELF];
    }
    WhereAll([SELF], {SELF});
    assert Parts([SELF], totals) == [totals[X]] by {
      assert [SELF][..0] == [];
    }
    SpentKept({Inside(0)});
    var own, total := TallyWhere(a, {Inside(0)}), totals[X];
    assert ([own] + [total])[1..] == [total];
    assert TotalCost([total]) == total.costUsd + TotalCost([total][1..]);
  }

  /** Its row: a total of 1, and one skill whose total is 2. */
  ghost predicate SkillExceedsTotal(row: AgentCostRow) {
    && row.owner == X && row.includingDescendants.cost.costUsd == 1.0
    && |row.skills| == 1 && row.skills[0].includingDescendants.cost.costUsd == 2.0
  }

  lemma OneSkill(a: Allocation, children: seq<SubAgent>, totals: map<Owner, Tally>)
    requires |a.windows| == 1 && |a.windows[0].invocations| == 1
    ensures SingleWindows(a.windows) == [0]
    ensures |SkillCosts(a, children, totals, [0])| == 1
    ensures SkillCosts(a, children, totals, [0])[0].includingDescendants.cost.costUsd == SkillTally(a, children, totals, 0).costUsd
  {
    assert SingleWindows(a.windows) == [0] by {
      assert a.windows[..0] == [];
    }
    hide SkillTally, Launched, TallyWhere, LinesWhere;
    assert [0][1..] == [];
    assert SkillCosts(a, children, totals, [0][1..]) == [];
    var tally := SkillTally(a, children, totals, 0);
    assert ReadingOf(tally).costUsd == tally.costUsd;
  }

  lemma SelfRow(ledger: Ledger, totals: map<Owner, Tally>)
    requires IsItsWorld(ledger.world) && X in totals && totals[X].costUsd == 1.0
    ensures SkillExceedsTotal(RowOf(ledger, totals, X))
  {
    SelfLaunch(ledger.world, totals);
    OneSkill(Spent(), [SELF], totals);
    RowShows(ledger, totals, X);
    hide RowOf, SkillTally, SkillCosts, SingleWindows, ChildrenOf, Spent;
  }

  lemma OnlyRow(ledger: Ledger, totals: map<Owner, Tally>)
    requires IsItsWorld(ledger.world) && X in totals
    ensures RowsOf(ledger, totals, ledger.world.order[1..]) == [RowOf(ledger, totals, X)]
  {
    hide RowOf;
    assert ledger.world.order[1..] == [X];
  }

  /** In the allocation of that attempt the agent's skill costs twice what the agent does. */
  lemma SelfParentedSkillExceedsTotal()
    ensures AsRead(SelfParented()) && RowsAscend(SelfParented()) && ModelUsage([], map[]).Valid()
    ensures var returned := AllocateCost(SelfParented(), OneEach(), ModelUsage([], map[]));
      returned.CostAllocation? && |returned.agents| == 1 && SkillExceedsTotal(returned.agents[0])
  {
    SelfParentedAsRead();
    SelfParentedWorld();
    assert ModelUsage([], map[]).Valid();
    var ledger := LedgerOf(SelfParented(), OneEach(), ModelUsage([], map[]));
    SelfTotal(ledger.world);
    SelfRow(ledger, TotalsOf(ledger.world));
    OnlyRow(ledger, TotalsOf(ledger.world));
    hide WorldOf, CalculatedTally, RowOf, RowsOf, ModelRows, RowsAscend, AsRead, SkillExceedsTotal, TotalsOf;
    assert AgentTreeOf(SelfParented()).rootSeries.boundaryKnown;
  }
}
