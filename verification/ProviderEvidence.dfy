/** When an agent is given a provider cost, read off the input. */
module ProviderEvidence {
  import opened Wrappers
  import opened Collections
  import opened Ordering
  import opened Counts
  import opened ParentLinks
  import opened Transcripts
  import opened AgentTally
  import opened SkillWindows
  import opened AgentTree
  import opened AgentRequestCost
  import opened AgentDescendants
  import opened AgentProvider
  import opened AgentCost
  import opened ReturnedAllocation
  import opened AllocationEvidence

  // ---- before the attempt

  /** The series holds what ran before the attempt: the root's own, or that of an agent that ran before it. */
  ghost predicate RanBefore(tree: Tree, series: Series) {
    series == tree.rootSeries
    || exists agent :: agent in tree.agents && agent.context == Inherited && agent.evidence == Available(series)
  }

  /** An entry from before the attempt that spent, or may have. */
  ghost predicate SpentBefore(tree: Tree, e: RequestEntry) {
    exists series :: RanBefore(tree, series) && e in series.entries && e.region != Attempt && e.usage != NO_TOKENS
  }

  /** Everything that ran before the attempt is known, with its models. */
  ghost predicate PrefixKnown(tree: Tree) {
    && (forall agent :: agent in tree.agents && agent.context == Inherited ==> agent.evidence.Available?)
    && (forall series, row :: RanBefore(tree, series) && row in series.unreadableLines ==> row.region == Attempt)
    && forall e :: SpentBefore(tree, e) ==> e.model.Some?
  }

  lemma {:induction false} SeriesBeforeMeans(agents: seq<SubAgent>)
    ensures SeriesBeforeAttempt(agents).Some? <==>
      forall agent :: agent in agents && agent.context == Inherited ==> agent.evidence.Available?
    ensures SeriesBeforeAttempt(agents).Some? ==> forall series :: series in SeriesBeforeAttempt(agents).value <==>
      exists agent :: agent in agents && agent.context == Inherited && agent.evidence == Available(series)
  {
    if agents != [] {
      SeriesBeforeMeans(agents[1..]);
      assert agents == [agents[0]] + agents[1..];
      assert forall agent :: agent in agents <==> agent == agents[0] || agent in agents[1..];
    }
  }

  lemma {:induction false} EntriesBeforeMean(entries: seq<RequestEntry>, e: RequestEntry)
    ensures e in EntriesBefore(entries) <==> e in entries && e.region != Attempt
  {
    if entries != [] {
      EntriesBeforeMean(entries[1..], e);
      assert entries == [entries[0]] + entries[1..];
    }
  }

  lemma {:induction false} AllEntriesBeforeMean(all: seq<Series>, e: RequestEntry)
    ensures e in AllEntriesBefore(all) <==> exists series :: series in all && e in series.entries && e.region != Attempt
  {
    if all != [] {
      AllEntriesBeforeMean(all[1..], e);
      EntriesBeforeMean(all[0].entries, e);
      assert forall series :: series in all <==> series == all[0] || series in all[1..];
    }
  }

  /** The models before the attempt are known exactly when everything before it is, and are those it spent on. */
  lemma ModelsBeforeMean(tree: Tree)
    ensures ModelsBeforeAttempt(tree).Some? <==> PrefixKnown(tree)
    ensures ModelsBeforeAttempt(tree).Some? ==> forall m :: m in ModelsBeforeAttempt(tree).value <==>
      exists e :: SpentBefore(tree, e) && e.model == Some(m)
  {
    SeriesBeforeMeans(tree.agents);
    if SeriesBeforeAttempt(tree.agents).Some? {
      var all := [tree.rootSeries] + SeriesBeforeAttempt(tree.agents).value;
      var entries := AllEntriesBefore(all);
      forall series ensures series in all <==> RanBefore(tree, series) {
      }
      forall e ensures e in entries && Spent(e) <==> SpentBefore(tree, e) {
        AllEntriesBeforeMean(all, e);
      }
      KnownModelsListed(entries);
      hide AllEntriesBefore, KnownModels, RanBefore, SpentBefore, SeriesBeforeAttempt, Spent;
      forall model ensures model in SpentModels(entries) <==> exists e :: SpentBefore(tree, e) && e.model == model {
      }
    }
  }

  // ---- during the attempt

  lemma {:induction false} NoneUnavailable(agents: seq<SubAgent>)
    ensures UnavailableIds(agents) == [] <==>
      forall agent :: agent in agents && agent.evidence.Unavailable? ==> agent.context == Inherited
  {
    if agents != [] {
      NoneUnavailable(agents[1..]);
      assert agents == [agents[0]] + agents[1..];
      assert forall agent :: agent in agents <==> agent == agents[0] || agent in agents[1..];
    }
  }

  ghost predicate ReadableAttempt(p: Participant) {
    forall row :: row in p.series.unreadableLines ==> row.region != Attempt
  }

  lemma NoneUnreadable(p: Participant, readers: Readers)
    requires WellFormed(Allocate(p, readers))
    ensures var a := Allocate(p, readers);
      ReasonsWhere(a.unreadable, AllWindows(a)) == [] <==> ReadableAttempt(p)
  {
    var a := Allocate(p, readers);
    var rows := p.series.unreadableLines;
    assert a.unreadable == UnreadableLines(rows, p.owner, a.windows, readers);
    hide Allocate, UnreadableLines, WindowFrom, AllWindows;
    AllKept(a.unreadable, AllWindows(a));
    if a.unreadable != [] {
      assert a.unreadable[0] in a.unreadable;
      UnreadableMeans(rows, p.owner, a.windows, readers, a.unreadable[0]);
    }
    forall row | row in rows && row.region == Attempt ensures a.unreadable != [] {
      UnreadableMeans(rows, p.owner, a.windows, readers,
        UnreadableLine(readers.unreadableReason(p.owner, row.line), WindowAt(a.windows, row.line)));
    }
  }

  lemma AllKept(unreadable: seq<UnreadableLine>, keep: set<Place>)
    requires forall each :: each in unreadable ==> each.window in keep
    ensures ReasonsWhere(unreadable, keep) == [] <==> unreadable == []
  {
    if unreadable != [] {
      assert unreadable[0] in unreadable;
    }
  }

  lemma {:induction false} NoReasons(w: World, owners: seq<Owner>)
    requires forall o :: o in owners ==> o in w.allocations
    ensures UnreadableReasons(w, owners) == [] <==>
      forall o :: o in owners ==> ReasonsWhere(w.allocations[o].unreadable, AllWindows(w.allocations[o])) == []
  {
    if owners != [] {
      assert owners[0] in owners;
      NoReasons(w, owners[1..]);
      assert forall o :: o in owners <==> o == owners[0] || o in owners[1..];
      hide ReasonsWhere, AllWindows;
    }
  }

  lemma UnreadableReasonsMean(input: TreeInput, readers: Readers)
    requires RowsAscend(input)
    ensures var w := WorldOf(input, readers);
      UnreadableReasons(w, w.order) == [] <==> forall o, p :: TakesPartWith(input, o, p) ==> ReadableAttempt(p)
  {
    var w := WorldOf(input, readers);
    WorldIsValid(input, readers);
    OrderListsAllocations(w);
    AllocationsMean(input, readers);
    hide WorldOf, TakesPartWith, ReadableAttempt, WellFormed, Allocate, RowsAscend, AllWindows, ReasonsWhere;
    NoReasons(w, w.order);
    forall o, p | TakesPartWith(input, o, p)
      ensures ReasonsWhere(w.allocations[o].unreadable, AllWindows(w.allocations[o])) == [] <==> ReadableAttempt(p)
    {
      NoneUnreadable(p, readers);
    }
  }

  /**
   * Nothing hides which models ran: every agent of the attempt has its transcript, every line of
   * the attempt could be read, every request that spent names its model, and what ran before is known.
   */
  ghost predicate EverythingKnown(input: TreeInput) {
    && (forall agent :: agent in AgentsOf(input) && agent.evidence.Unavailable? ==> agent.context == Inherited)
    && (forall o, p :: TakesPartWith(input, o, p) ==> ReadableAttempt(p))
    && (forall o, e :: SpentIn(input, o, e) ==> e.model.Some?)
    && PrefixKnown(AgentTreeOf(input))
  }

  lemma UnmodeledMeans(input: TreeInput, readers: Readers)
    ensures var w := WorldOf(input, readers);
      (exists o :: o in w.allocations && None in w.allocations[o].models) <==> exists o, e :: SpentIn(input, o, e) && e.model.None?
  {
    var w := WorldOf(input, readers);
    AllocationsMean(input, readers);
    hide WorldOf, TakesPartWith, Allocate;
    forall o | o in w.allocations
      ensures None in w.allocations[o].models <==> exists e :: SpentIn(input, o, e) && e.model == None
    {
      ModelsMean(input, readers, o, None);
    }
    if o, e :| SpentIn(input, o, e) && e.model.None? {
      assert o in w.allocations;
      assert e.model == None;
    }
  }

  lemma CoverageMeans(input: TreeInput, readers: Readers, usage: ModelUsage)
    requires RowsAscend(input)
    ensures ProviderCoverageReason(LedgerOf(input, readers, usage)).None? <==> EverythingKnown(input)
  {
    NoneUnavailable(AgentsOf(input));
    UnreadableReasonsMean(input, readers);
    UnmodeledMeans(input, readers);
    ModelsBeforeMean(AgentTreeOf(input));
    hide WorldOf, AgentsOf, UnavailableIds, UnreadableReasons, ModelsBeforeAttempt, PrefixKnown, TakesPartWith, ReadableAttempt, SpentIn;
    hide RowsAscend;
  }

  /** The model was counted by the provider, ran nothing before the attempt, and ran for no other owner in it. */
  ghost predicate RanOnlyFor(input: TreeInput, usage: ModelUsage, o: Owner, m: string) {
    && m in usage.costUsd
    && (forall e :: SpentBefore(AgentTreeOf(input), e) ==> e.model != Some(m))
    && forall other, e :: SpentIn(input, other, e) && e.model == Some(m) ==> other == o
  }

  lemma ListedModels(input: TreeInput, readers: Readers, o: Owner)
    requires RowsAscend(input) && o in WorldOf(input, readers).allocations
    ensures forall m :: m in ModelsOf(WorldOf(input, readers).allocations[o]) <==> exists e :: SpentIn(input, o, e) && e.model == Some(m)
  {
    WorldIsValid(input, readers);
    var a := WorldOf(input, readers).allocations[o];
    ModelsOfListed(a);
    hide WorldOf, SpentIn, ModelsOf, WellFormed, RowsAscend;
    forall m ensures m in ModelsOf(a) <==> exists e :: SpentIn(input, o, e) && e.model == Some(m) {
      ModelsMean(input, readers, o, Some(m));
    }
  }

  lemma RanAloneMeans(input: TreeInput, readers: Readers, usage: ModelUsage, o: Owner, m: string)
    requires RowsAscend(input) && o in WorldOf(input, readers).allocations && PrefixKnown(AgentTreeOf(input))
    ensures m in usage.costUsd && RanAlone(LedgerOf(input, readers, usage), o, m) <==> RanOnlyFor(input, usage, o, m)
  {
    var w := WorldOf(input, readers);
    AllocationsMean(input, readers);
    ModelsBeforeMean(AgentTreeOf(input));
    assert LedgerOf(input, readers, usage).world == w;
    assert LedgerOf(input, readers, usage).modelsBeforeAttempt == ModelsBeforeAttempt(AgentTreeOf(input));
    forall other | other in w.allocations
      ensures m in ModelsOf(w.allocations[other]) <==> exists e :: SpentIn(input, other, e) && e.model == Some(m)
    {
      ListedModels(input, readers, other);
    }
    forall other, e | SpentIn(input, other, e) ensures other in w.allocations {
      var p :| TakesPartWith(input, other, p) && e in p.series.entries && e.region == Attempt && e.usage != NO_TOKENS;
    }
    hide WorldOf, LedgerOf, SpentIn, ModelsOf, TakesPartWith, RowsAscend, AgentTreeOf, ModelsBeforeAttempt, PrefixKnown, SpentBefore;
    hide Allocate;
  }

  lemma ModelsSorted(a: Allocation)
    ensures NoRepeats(ModelsOf(a)) && Ascending(ModelsOf(a))
  {
    DistinctElements(KnownModels(a.attemptEntries));
    SortKeeps(Distinct(KnownModels(a.attemptEntries)));
  }

  lemma ReportedModelsAre(ledger: Ledger, o: Owner)
    requires o in ledger.world.allocations && ProviderCostOf(ledger, o).Reported?
    ensures ProviderCostOf(ledger, o).models == ModelsOf(ledger.world.allocations[o])
  {
    hide ModelsOf, ProviderCoverageReason, CostOrReason;
  }

  /** Asking of every model is asking of every entry that spent. */
  lemma ModelsAsEntries(input: TreeInput, usage: ModelUsage, o: Owner, models: seq<string>)
    requires forall m :: m in models <==> exists e :: SpentIn(input, o, e) && e.model == Some(m)
    requires forall e :: SpentIn(input, o, e) ==> e.model.Some?
    ensures models != [] <==> exists e :: SpentIn(input, o, e)
    ensures (forall m :: m in models ==> RanOnlyFor(input, usage, o, m)) <==>
      forall e :: SpentIn(input, o, e) ==> RanOnlyFor(input, usage, o, e.model.value)
  {
    hide SpentIn, RanOnlyFor;
    if models != [] {
      assert models[0] in models;
    }
    forall e | SpentIn(input, o, e) ensures e.model.value in models {
      assert e.model == Some(e.model.value);
    }
  }

  lemma ReportedAsEntries(input: TreeInput, readers: Readers, usage: ModelUsage, o: Owner)
    requires RowsAscend(input) && usage.Valid() && o in WorldOf(input, readers).allocations
    requires EverythingKnown(input)
    ensures var models := ModelsOf(WorldOf(input, readers).allocations[o]);
      && (models != [] <==> exists e :: SpentIn(input, o, e))
      && ((forall m :: m in models ==> m in usage.costUsd && RanAlone(LedgerOf(input, readers, usage), o, m)) <==>
            forall e :: SpentIn(input, o, e) ==> RanOnlyFor(input, usage, o, e.model.value))
  {
    var models := ModelsOf(WorldOf(input, readers).allocations[o]);
    ListedModels(input, readers, o);
    hide LedgerOf, WorldOf, SpentIn, ModelsOf, RowsAscend, RanAlone, RanOnlyFor, AgentTreeOf, TakesPartWith, ReadableAttempt, AgentsOf;
    ModelsAsEntries(input, usage, o, models);
    forall m | m in models
      ensures m in usage.costUsd && RanAlone(LedgerOf(input, readers, usage), o, m) <==> RanOnlyFor(input, usage, o, m)
    {
      RanAloneMeans(input, readers, usage, o, m);
    }
  }

  /**
   * An owner is given a provider cost exactly when nothing hides which models ran, it spent in the
   * attempt, and every model it spent on was counted and ran for nobody else, in the attempt or before it.
   */
  lemma ProviderReportsWhen(input: TreeInput, readers: Readers, usage: ModelUsage, o: Owner)
    requires RowsAscend(input) && usage.Valid() && o in WorldOf(input, readers).allocations
    ensures LedgerOf(input, readers, usage).world == WorldOf(input, readers)
    ensures var provider := ProviderCostOf(LedgerOf(input, readers, usage), o);
      && (provider.Reported? <==>
            && EverythingKnown(input) && (exists e :: SpentIn(input, o, e))
            && forall e :: SpentIn(input, o, e) ==> RanOnlyFor(input, usage, o, e.model.value))
      && (provider.Reported? ==>
            && (forall m :: m in provider.models <==> exists e :: SpentIn(input, o, e) && e.model == Some(m))
            && NoRepeats(provider.models) && Ascending(provider.models)
            && provider.costUsd == Sum(provider.models, UsageCount(usage)).cost)
  {
    var ledger, w := LedgerOf(input, readers, usage), WorldOf(input, readers);
    LedgerIsValid(input, readers, usage);
    CoverageMeans(input, readers, usage);
    ReportedExactlyWhen(ledger, o);
    ListedModels(input, readers, o);
    ModelsSorted(w.allocations[o]);
    assert ledger.modelUsage == usage;
    if EverythingKnown(input) {
      ReportedAsEntries(input, readers, usage, o);
    }
    hide *;
    if ProviderCostOf(ledger, o).Reported? {
      ReportedModelsAre(ledger, o);
    }
  }

  /** So it is in every returned row. */
  lemma ReturnedProviderMeans(input: TreeInput, readers: Readers, usage: ModelUsage, i: nat)
    requires RowsAscend(input) && usage.Valid() && input.rootSeries.boundaryKnown && i < |WorldOf(input, readers).order|
    ensures var returned, o := AllocateCost(input, readers, usage), WorldOf(input, readers).order[i];
      && returned.CostAllocation? && |Rows(returned)| == |WorldOf(input, readers).order|
      && var provider := Rows(returned)[i].provider;
         && (provider.Reported? <==>
               && EverythingKnown(input) && (exists e :: SpentIn(input, o, e))
               && forall e :: SpentIn(input, o, e) ==> RanOnlyFor(input, usage, o, e.model.value))
         && (provider.Reported? ==>
               && (forall m :: m in provider.models <==> exists e :: SpentIn(input, o, e) && e.model == Some(m))
               && provider.costUsd == Sum(provider.models, UsageCount(usage)).cost)
  {
    ReturnedProviders(input, readers, usage);
    LedgerIsValid(input, readers, usage);
    hide AllocateCost, LedgerOf, WorldOf, RowsAscend, Rows, EverythingKnown, SpentIn, RanOnlyFor, UsageCount, Sum;
    ProviderReportsWhen(input, readers, usage, WorldOf(input, readers).order[i]);
  }

  // ---- the reasons a row by model carries

  /** An agent of the attempt without a transcript, and the reason that says so. */
  ghost predicate MissingTranscript(input: TreeInput, reason: string) {
    exists agent :: agent in AgentsOf(input) && agent.evidence.Unavailable? && agent.context != Inherited
      && reason == UnavailableAgentReason(agent.agentId)
  }

  /** A line of the attempt that could not be read, and the reason that says so. */
  ghost predicate UnreadableInAttempt(input: TreeInput, readers: Readers, reason: string) {
    exists o, p, row :: TakesPartWith(input, o, p) && row in p.series.unreadableLines && row.region == Attempt
      && reason == readers.unreadableReason(o, row.line)
  }

  lemma {:induction false} UnavailableIdsMean(agents: seq<SubAgent>, id: string)
    ensures id in UnavailableIds(agents) <==>
      exists agent :: agent in agents && agent.evidence.Unavailable? && agent.context != Inherited && agent.agentId == id
  {
    if agents != [] {
      UnavailableIdsMean(agents[1..], id);
      assert agents == [agents[0]] + agents[1..];
      assert forall agent :: agent in agents <==> agent == agents[0] || agent in agents[1..];
    }
  }

  lemma MissingReasonsMean(input: TreeInput, reason: string)
    ensures reason in MissingReasons(UnavailableIds(AgentsOf(input))) <==> MissingTranscript(input, reason)
  {
    var agents := AgentsOf(input);
    var ids := UnavailableIds(agents);
    hide AgentsOf, UnavailableIds, UnavailableAgentReason;
    forall id ensures id in ids <==>
      exists agent :: agent in agents && agent.evidence.Unavailable? && agent.context != Inherited && agent.agentId == id
    {
      UnavailableIdsMean(agents, id);
    }
    if reason in MissingReasons(ids) {
      var k :| 0 <= k < |ids| && MissingReasons(ids)[k] == reason;
      assert ids[k] in ids;
    }
    if MissingTranscript(input, reason) {
      var agent :| agent in agents && agent.evidence.Unavailable? && agent.context != Inherited
        && reason == UnavailableAgentReason(agent.agentId);
      assert agent.agentId in ids;
      var k :| 0 <= k < |ids| && ids[k] == agent.agentId;
      assert MissingReasons(ids)[k] == reason;
    }
  }

  lemma {:induction false} UnreadableReasonsListed(w: World, owners: seq<Owner>, reason: string)
    ensures reason in UnreadableReasons(w, owners) <==>
      exists o :: o in owners && o in w.allocations && reason in ReasonsWhere(w.allocations[o].unreadable, AllWindows(w.allocations[o]))
  {
    hide ReasonsWhere, AllWindows;
    if owners != [] {
      UnreadableReasonsListed(w, owners[1..], reason);
      assert forall o :: o in owners <==> o == owners[0] || o in owners[1..];
    }
  }

  lemma OwnReasonsMean(p: Participant, readers: Readers, reason: string)
    requires WellFormed(Allocate(p, readers))
    ensures var a := Allocate(p, readers);
      reason in ReasonsWhere(a.unreadable, AllWindows(a)) <==>
        exists row :: row in p.series.unreadableLines && row.region == Attempt && reason == readers.unreadableReason(p.owner, row.line)
  {
    var a := Allocate(p, readers);
    var rows := p.series.unreadableLines;
    assert a.unreadable == UnreadableLines(rows, p.owner, a.windows, readers);
    ReasonsWhereElements(a.unreadable, AllWindows(a));
    hide Allocate, UnreadableLines, WindowFrom, AllWindows, ReasonsWhere;
    assert reason in ReasonsWhere(a.unreadable, AllWindows(a)) <==> reason in Elements(ReasonsWhere(a.unreadable, AllWindows(a)));
    if each :| each in a.unreadable && each.window in AllWindows(a) && each.reason == reason {
      UnreadableMeans(rows, p.owner, a.windows, readers, each);
    }
    if row :| row in rows && row.region == Attempt && reason == readers.unreadableReason(p.owner, row.line) {
      var each := UnreadableLine(reason, WindowAt(a.windows, row.line));
      UnreadableMeans(rows, p.owner, a.windows, readers, each);
      assert each in a.unreadable && each.window in AllWindows(a) && each.reason == reason;
    }
  }

  lemma AllUnreadableMean(input: TreeInput, readers: Readers, reason: string)
    requires RowsAscend(input)
    ensures reason in UnreadableReasons(WorldOf(input, readers), WorldOf(input, readers).order) <==>
      UnreadableInAttempt(input, readers, reason)
  {
    var w := WorldOf(input, readers);
    WorldIsValid(input, readers);
    OrderListsAllocations(w);
    AllocationsMean(input, readers);
    UnreadableReasonsListed(w, w.order, reason);
    hide WorldOf, TakesPartWith, WellFormed, Allocate, RowsAscend, AllWindows, ReasonsWhere, UnreadableReasons;
    forall o, p | TakesPartWith(input, o, p)
      ensures reason in ReasonsWhere(w.allocations[o].unreadable, AllWindows(w.allocations[o])) <==>
        exists row :: row in p.series.unreadableLines && row.region == Attempt && reason == readers.unreadableReason(o, row.line)
    {
      OwnReasonsMean(p, readers, reason);
      OwnerOf(input, o, p);
    }
  }

  lemma OwnerOf(input: TreeInput, o: Owner, p: Participant)
    requires TakesPartWith(input, o, p)
    ensures p.owner == o
  {
  }

  /**
   * Every row by model carries the same reasons: one for each agent of the attempt without a
   * transcript, one for each line of the attempt that could not be read, and one when a request
   * of the attempt that spent names no model.
   */
  lemma RowReasonsMean(input: TreeInput, readers: Readers, usage: ModelUsage, reason: string)
    requires RowsAscend(input)
    ensures reason in RowReasons(LedgerOf(input, readers, usage), MissingReasons(UnavailableIds(AgentsOf(input)))) <==>
      || MissingTranscript(input, reason) || UnreadableInAttempt(input, readers, reason)
      || (reason == UNMODELED_REQUEST && exists o, e :: SpentIn(input, o, e) && e.model.None?)
  {
    var ledger, missing := LedgerOf(input, readers, usage), MissingReasons(UnavailableIds(AgentsOf(input)));
    MissingReasonsMean(input, reason);
    AllUnreadableMean(input, readers, reason);
    UnmodeledMeans(input, readers);
    assert ledger.unreadable == UnreadableReasons(WorldOf(input, readers), WorldOf(input, readers).order);
    hide WorldOf, AgentsOf, UnreadableReasons, ModelsBeforeAttempt, MissingReasons, UnavailableIds, SpentIn, RowsAscend;
    hide MissingTranscript, UnreadableInAttempt;
    var unmodeled := if ledger.unmodeled then [UNMODELED_REQUEST] else [];
    assert reason in RowReasons(ledger, missing) <==> reason in missing || reason in ledger.unreadable || reason in unmodeled;
  }

  lemma {:induction false} KnownAmong(w: World, owners: seq<Owner>, m: string)
    ensures m in KnownEverywhere(w, owners) <==>
      exists o :: o in owners && o in w.allocations && m in KnownModels(w.allocations[o].attemptEntries)
  {
    hide KnownModels;
    if owners != [] {
      KnownAmong(w, owners[1..], m);
      assert forall o :: o in owners <==> o == owners[0] || o in owners[1..];
    }
  }

  lemma KnownOfAnOwner(input: TreeInput, readers: Readers, o: Owner, m: string)
    requires RowsAscend(input) && o in WorldOf(input, readers).allocations
    ensures m in KnownModels(WorldOf(input, readers).allocations[o].attemptEntries) <==>
      exists e :: SpentIn(input, o, e) && e.model == Some(m)
  {
    WorldIsValid(input, readers);
    ModelsMean(input, readers, o, Some(m));
    KnownModelsListed(WorldOf(input, readers).allocations[o].attemptEntries);
    hide WorldOf, SpentIn, KnownModels, RowsAscend;
  }

  /** There is one row for each model the provider counted or a request of the attempt spent on, sorted by name. */
  lemma RowModelsMean(input: TreeInput, readers: Readers, usage: ModelUsage, m: string)
    requires RowsAscend(input) && usage.Valid()
    ensures var models := RowModels(LedgerOf(input, readers, usage));
      && (m in models <==> m in usage.costUsd || exists o, e :: SpentIn(input, o, e) && e.model == Some(m))
      && NoRepeats(models) && Ascending(models)
  {
    var ledger, w := LedgerOf(input, readers, usage), WorldOf(input, readers);
    var known := KnownEverywhere(w, w.order);
    var all := usage.names + known;
    WorldIsValid(input, readers);
    OrderListsAllocations(w);
    AllocationsMean(input, readers);
    DistinctElements(all);
    SortKeeps(Distinct(all));
    KnownAmong(w, w.order, m);
    assert RowModels(ledger) == SortStrings(Distinct(all));
    hide LedgerOf, WorldOf, KnownEverywhere, KnownModels, SortStrings, Distinct, TakesPartWith, Allocate, RowsAscend, WellFormed, Ascending;
    assert m in SortStrings(Distinct(all)) <==> m in Elements(all);
    assert m in all <==> m in usage.names || m in known;
    assert m in usage.names <==> m in Elements(usage.names);
    forall o | o in w.allocations
      ensures m in KnownModels(w.allocations[o].attemptEntries) <==> exists e :: SpentIn(input, o, e) && e.model == Some(m)
    {
      KnownOfAnOwner(input, readers, o, m);
    }
    forall o, e | SpentIn(input, o, e) ensures o in w.allocations {
      var p :| TakesPartWith(input, o, p) && e in p.series.entries && e.region == Attempt && e.usage != NO_TOKENS;
    }
  }

  // ---- why an owner is given no provider cost

  lemma {:induction false} ReasonOfAModel(ledger: Ledger, models: seq<string>, o: Owner) returns (m: string)
    requires CostOrReason(ledger, models, o).Err?
    ensures m in models && ModelProviderCost(ledger, m, o).Err?
    ensures CostOrReason(ledger, models, o).error == ModelProviderCost(ledger, m, o).error
  {
    var n := |models| - 1;
    if CostOrReason(ledger, models[..n], o).Err? {
      m := ReasonOfAModel(ledger, models[..n], o);
    } else {
      m := models[n];
    }
  }

  /** What is said of a model that is not the owner's alone. */
  ghost predicate SaysWhy(input: TreeInput, usage: ModelUsage, o: Owner, m: string, reason: string) {
    if exists e :: SpentBefore(AgentTreeOf(input), e) && e.model == Some(m) then
      reason == "the inherited prefix also ran on " + m
    else if exists other, e :: other != o && SpentIn(input, other, e) && e.model == Some(m) then
      reason == "another agent ran on " + m
    else m !in usage.costUsd && reason == "the record carries no provider count for " + m
  }

  lemma UsedByAnotherMeans(input: TreeInput, readers: Readers, usage: ModelUsage, o: Owner, m: string)
    ensures UsedByAnother(LedgerOf(input, readers, usage), m, o) <==>
      exists other, e :: other != o && SpentIn(input, other, e) && e.model == Some(m)
  {
    var w := WorldOf(input, readers);
    assert LedgerOf(input, readers, usage).world == w;
    AllocationsMean(input, readers);
    hide WorldOf, LedgerOf, TakesPartWith, Allocate;
    forall other | other in w.allocations
      ensures Some(m) in w.allocations[other].models <==> exists e :: SpentIn(input, other, e) && e.model == Some(m)
    {
      ModelsMean(input, readers, other, Some(m));
    }
    forall other, e | SpentIn(input, other, e) ensures other in w.allocations {
      var p :| TakesPartWith(input, other, p) && e in p.series.entries && e.region == Attempt && e.usage != NO_TOKENS;
    }
  }

  lemma ModelReasonSays(input: TreeInput, readers: Readers, usage: ModelUsage, o: Owner, m: string)
    requires PrefixKnown(AgentTreeOf(input))
    requires ModelProviderCost(LedgerOf(input, readers, usage), m, o).Err?
    ensures SaysWhy(input, usage, o, m, ModelProviderCost(LedgerOf(input, readers, usage), m, o).error)
  {
    UsedByAnotherMeans(input, readers, usage, o, m);
    ModelsBeforeMean(AgentTreeOf(input));
    assert LedgerOf(input, readers, usage).modelUsage == usage;
    assert LedgerOf(input, readers, usage).modelsBeforeAttempt == ModelsBeforeAttempt(AgentTreeOf(input));
    hide LedgerOf, AgentTreeOf, ModelsBeforeAttempt, PrefixKnown, SpentBefore, SpentIn, UsedByAnother;
  }

  ghost predicate LacksATranscript(input: TreeInput) {
    exists agent :: agent in AgentsOf(input) && agent.evidence.Unavailable? && agent.context != Inherited
  }

  ghost predicate NamesNoModel(input: TreeInput) {
    exists o, e :: SpentIn(input, o, e) && e.model.None?
  }

  /** What is said first when something hides which models ran. */
  ghost predicate SaysWhatHides(input: TreeInput, readers: Readers, reason: string) {
    if LacksATranscript(input) then reason == "an agent without a kept transcript may have run on the same model"
    else if exists line :: UnreadableInAttempt(input, readers, line) then
      exists line :: UnreadableInAttempt(input, readers, line) && reason == line + ", so the model it ran on is unknown"
    else if NamesNoModel(input) then reason == "an attempt request names no model and may have run on any of them"
    else !PrefixKnown(AgentTreeOf(input)) && reason == "the inherited prefix holds a request on an unknown model"
  }

  lemma FirstUnreadable(input: TreeInput, readers: Readers)
    requires RowsAscend(input)
    ensures var reasons := UnreadableReasons(WorldOf(input, readers), WorldOf(input, readers).order);
      if reasons != [] then UnreadableInAttempt(input, readers, reasons[0])
      else forall line :: !UnreadableInAttempt(input, readers, line)
  {
    hide *;
    var reasons := UnreadableReasons(WorldOf(input, readers), WorldOf(input, readers).order);
    forall line ensures line in reasons <==> UnreadableInAttempt(input, readers, line) {
      AllUnreadableMean(input, readers, line);
    }
    if reasons != [] {
      assert reasons[0] in reasons;
    }
  }

  /** What the ledger's coverage comes down to. */
  lemma LedgerReads(input: TreeInput, readers: Readers, usage: ModelUsage)
    ensures var ledger := LedgerOf(input, readers, usage);
      && ledger.unreadable == UnreadableReasons(WorldOf(input, readers), WorldOf(input, readers).order)
      && (ledger.coverageComplete <==> !LacksATranscript(input))
      && (ledger.unmodeled <==> NamesNoModel(input))
      && (ledger.modelsBeforeAttempt.Some? <==> PrefixKnown(AgentTreeOf(input)))
  {
    NoneUnavailable(AgentsOf(input));
    UnmodeledMeans(input, readers);
    ModelsBeforeMean(AgentTreeOf(input));
    hide WorldOf, AgentsOf, UnavailableIds, UnreadableReasons, ModelsBeforeAttempt, SpentIn, PrefixKnown;
  }

  lemma CoverageSays(input: TreeInput, readers: Readers, usage: ModelUsage)
    requires RowsAscend(input) && ProviderCoverageReason(LedgerOf(input, readers, usage)).Some?
    ensures SaysWhatHides(input, readers, ProviderCoverageReason(LedgerOf(input, readers, usage)).value)
  {
    LedgerReads(input, readers, usage);
    FirstUnreadable(input, readers);
    hide LedgerOf, WorldOf, UnreadableReasons, LacksATranscript, NamesNoModel, PrefixKnown, UnreadableInAttempt, RowsAscend, AgentTreeOf;
  }

  /** An owner without a provider cost is given the reason that stands. */
  lemma ProviderRefusalSays(input: TreeInput, readers: Readers, usage: ModelUsage, o: Owner)
    requires RowsAscend(input) && usage.Valid() && o in LedgerOf(input, readers, usage).world.allocations
    requires ProviderCostOf(LedgerOf(input, readers, usage), o).NotSeparable?
    ensures var reason := ProviderCostOf(LedgerOf(input, readers, usage), o).reason;
      if !EverythingKnown(input) then SaysWhatHides(input, readers, reason)
      else if !exists e :: SpentIn(input, o, e) then
        reason == "the agent made no attempt request with a recorded model"
      else exists e, m :: SpentIn(input, o, e) && e.model == Some(m) && SaysWhy(input, usage, o, m, reason)
  {
    var ledger := LedgerOf(input, readers, usage);
    var models := ModelsOf(ledger.world.allocations[o]);
    LedgerIsValid(input, readers, usage);
    CoverageMeans(input, readers, usage);
    if EverythingKnown(input) {
      ReportedAsEntries(input, readers, usage, o);
      ListedModels(input, readers, o);
      hide SpentIn, SaysWhy, LedgerOf, WorldOf, RanOnlyFor, RanAlone, ModelsOf, AgentTreeOf, RowsAscend;
      if models != [] {
        var m := ReasonOfAModel(ledger, models, o);
        ModelReasonSays(input, readers, usage, o, m);
      }
    } else {
      CoverageSays(input, readers, usage);
    }
  }
}
