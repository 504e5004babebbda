/** The provider's per-model counts beside the calculated ones: whose they are, and what they sum to. */
module AgentProvider {
  import opened Wrappers
  import opened Collections
  import opened Ordering
  import opened Counts
  import opened ParentLinks
  import opened Transcripts
  import opened AgentTally
  import opened AgentTree
  import opened AgentRequestCost
  import opened AgentDescendants
  import opened AgentForest

  /** The record's `modelUsage`: each model's name, in order, and its cost for the whole session. */
  datatype ModelUsage = ModelUsage(names: seq<string>, costUsd: map<string, real>) {
    ghost predicate Valid() {
      NoRepeats(names) && Elements(names) == costUsd.Keys && forall m :: m in costUsd ==> costUsd[m] >= 0.0
    }
  }

  datatype Ledger = Ledger(
    world: World,
    modelsBeforeAttempt: Option<set<string>>,
    unmodeled: bool,
    modelUsage: ModelUsage,
    coverageComplete: bool,
    unreadable: seq<string>)
  {
    ghost predicate Valid() {
      world.Valid() && modelUsage.Valid() && forall o :: o in world.allocations ==> WellFormed(world.allocations[o])
    }
  }

  datatype ProviderCost = Reported(costUsd: real, models: seq<string>) | NotSeparable(reason: string)

  const UNMODELED_REQUEST := "an attempt request names no model and may have run on any of them"

  function SeriesBeforeAttempt(agents: seq<SubAgent>): Option<seq<Series>> {
    if agents == [] then Some([])
    else
      var rest := SeriesBeforeAttempt(agents[1..]);
      if agents[0].context != Inherited then rest
      else if agents[0].evidence.Unavailable? || rest.None? then None
      else Some([agents[0].evidence.series] + rest.value)
  }

  function EntriesBefore(entries: seq<RequestEntry>): seq<RequestEntry> {
    if entries == [] then []
    else (if entries[0].region != Attempt then [entries[0]] else []) + EntriesBefore(entries[1..])
  }

  function AllEntriesBefore(series: seq<Series>): seq<RequestEntry> {
    if series == [] then [] else EntriesBefore(series[0].entries) + AllEntriesBefore(series[1..])
  }

  /** The models the attempt's prefix ran on, unless something before it could have run on any. */
  function ModelsBeforeAttempt(tree: Tree): Option<set<string>> {
    var inherited := SeriesBeforeAttempt(tree.agents);
    if inherited.None? then None
    else
      var series := [tree.rootSeries] + inherited.value;
      if exists each, row :: each in series && row in each.unreadableLines && row.region != Attempt then None
      else
        var entries := AllEntriesBefore(series);
        if None in SpentModels(entries) then None else Some(set m | m in KnownModels(entries))
  }

  function ProviderCoverageReason(ledger: Ledger): Option<string> {
    if !ledger.coverageComplete then Some("an agent without a kept transcript may have run on the same model")
    else if ledger.unreadable != [] then Some(ledger.unreadable[0] + ", so the model it ran on is unknown")
    else if ledger.unmodeled then Some(UNMODELED_REQUEST)
    else if ledger.modelsBeforeAttempt.None? then
      Some("the inherited prefix holds a request on an unknown model")
    else None
  }

  predicate UsedByAnother(ledger: Ledger, model: string, owner: Owner) {
    exists other :: other in ledger.world.allocations && other != owner
      && Some(model) in ledger.world.allocations[other].models
  }

  function ModelProviderCost(ledger: Ledger, model: string, owner: Owner): Result<real> {
    if ledger.modelsBeforeAttempt.Some? && model in ledger.modelsBeforeAttempt.value then
      Err("the inherited prefix also ran on " + model)
    else if UsedByAnother(ledger, model, owner) then Err("another agent ran on " + model)
    else if model !in ledger.modelUsage.costUsd then Err("the record carries no provider count for " + model)
    else Ok(ledger.modelUsage.costUsd[model])
  }

  ghost function CostOrReason(ledger: Ledger, models: seq<string>, owner: Owner): Result<real> {
    if models == [] then Ok(0.0)
    else
      var before := CostOrReason(ledger, models[..|models| - 1], owner);
      if before.Err? then before
      else
        var last := ModelProviderCost(ledger, models[|models| - 1], owner);
        if last.Err? then last else Ok(before.value + last.value)
  }

  ghost function ReportedOrNot(cost: Result<real>, models: seq<string>): ProviderCost {
    if cost.Err? then NotSeparable(cost.error) else Reported(cost.value, models)
  }

  /** Adds up the models' counts until one is not the owner's alone. */
  method ReportedModelsCost(ledger: Ledger, models: seq<string>, owner: Owner) returns (cost: ProviderCost)
    ensures cost == ReportedOrNot(CostOrReason(ledger, models, owner), models)
  {
    var costUsd := 0.0;
    for i := 0 to |models|
      invariant CostOrReason(ledger, models[..i], owner) == Ok(costUsd)
    {
      assert models[..i + 1][..i] == models[..i];
      var usage := ModelProviderCost(ledger, models[i], owner);
      if usage.Err? {
        ReasonStays(ledger, models, owner, i + 1);
        return NotSeparable(usage.error);
      }
      costUsd := costUsd + usage.value;
    }
    assert models[..|models|] == models;
    cost := Reported(costUsd, models);
  }

  lemma {:induction false} ReasonStays(ledger: Ledger, models: seq<string>, owner: Owner, i: nat)
    requires i <= |models| && CostOrReason(ledger, models[..i], owner).Err?
    ensures CostOrReason(ledger, models, owner) == CostOrReason(ledger, models[..i], owner)
    decreases |models|
  {
    if i == |models| {
      assert models[..i] == models;
    } else {
      assert models[..|models| - 1][..i] == models[..i];
      ReasonStays(ledger, models[..|models| - 1], owner, i);
    }
  }

  function ModelsOf(a: Allocation): seq<string> {
    SortStrings(Distinct(KnownModels(a.attemptEntries)))
  }

  ghost function ProviderCostOf(ledger: Ledger, owner: Owner): ProviderCost
    requires owner in ledger.world.allocations
  {
    var reason := ProviderCoverageReason(ledger);
    var models := ModelsOf(ledger.world.allocations[owner]);
    if reason.Some? then NotSeparable(reason.value)
    else if models == [] then NotSeparable("the agent made no attempt request with a recorded model")
    else ReportedOrNot(CostOrReason(ledger, models, owner), models)
  }

  /** The session's cost on a model, as a count that adds up. */
  ghost function UsageCount(usage: ModelUsage): string -> Count {
    (m: string) => if m in usage.costUsd then Count(usage.costUsd[m], 0, 0, {}) else ZERO
  }

  lemma CountIsUsage(ledger: Ledger, model: string, owner: Owner)
    ensures ModelProviderCost(ledger, model, owner).Ok? ==>
      ModelProviderCost(ledger, model, owner).value == UsageCount(ledger.modelUsage)(model).cost
  {
  }

  lemma {:induction false} ReportedCostMeans(ledger: Ledger, models: seq<string>, owner: Owner)
    ensures CostOrReason(ledger, models, owner).Ok? <==>
      forall m :: m in models ==> ModelProviderCost(ledger, m, owner).Ok?
    ensures CostOrReason(ledger, models, owner).Ok? ==>
      CostOrReason(ledger, models, owner).value == Sum(models, UsageCount(ledger.modelUsage)).cost
  {
    if models != [] {
      var n := |models| - 1;
      ReportedCostMeans(ledger, models[..n], owner);
      assert models == models[..n] + [models[n]];
      SumSnoc(models[..n], models[n], UsageCount(ledger.modelUsage));
      CountIsUsage(ledger, models[n], owner);
      hide ModelProviderCost, UsageCount, Sum;
      assert forall m :: m in models <==> m in models[..n] || m == models[n];
    }
  }

  /** Nothing before the attempt ran on the model, and no other agent of the attempt did. */
  ghost predicate RanAlone(ledger: Ledger, owner: Owner, m: string) {
    && ledger.modelsBeforeAttempt.Some? && m !in ledger.modelsBeforeAttempt.value
    && forall other :: other in ledger.world.allocations && other != owner ==>
         m !in ModelsOf(ledger.world.allocations[other])
  }

  /**
   * A provider cost is reported exactly when nothing hides a request's model, the owner ran on
   * some model, and each of its models was counted, was no other agent's and ran nothing before.
   */
  lemma ReportedExactlyWhen(ledger: Ledger, owner: Owner)
    requires ledger.Valid() && owner in ledger.world.allocations
    ensures var models := ModelsOf(ledger.world.allocations[owner]);
      ProviderCostOf(ledger, owner).Reported? <==>
        && ProviderCoverageReason(ledger).None? && models != []
        && forall m :: m in models ==> m in ledger.modelUsage.costUsd && RanAlone(ledger, owner, m)
    ensures ProviderCostOf(ledger, owner).Reported? ==>
      ProviderCostOf(ledger, owner).costUsd
        == Sum(ModelsOf(ledger.world.allocations[owner]), UsageCount(ledger.modelUsage)).cost
  {
    var models := ModelsOf(ledger.world.allocations[owner]);
    ReportedCostMeans(ledger, models, owner);
    if ProviderCoverageReason(ledger).None? {
      forall m | m in models
        ensures ModelProviderCost(ledger, m, owner).Ok? <==>
          m in ledger.modelUsage.costUsd && RanAlone(ledger, owner, m)
      {
        CountedAlone(ledger, m, owner);
      }
    }
    hide ModelProviderCost, RanAlone, ModelsOf, ProviderCoverageReason, UsageCount;
  }

  lemma CountedAlone(ledger: Ledger, m: string, owner: Owner)
    requires ledger.Valid() && owner in ledger.world.allocations && ProviderCoverageReason(ledger).None?
    ensures ModelProviderCost(ledger, m, owner).Ok? <==> m in ledger.modelUsage.costUsd && RanAlone(ledger, owner, m)
  {
    forall other | other in ledger.world.allocations
      ensures Some(m) in ledger.world.allocations[other].models <==> m in ModelsOf(ledger.world.allocations[other])
    {
      ModelsOfListed(ledger.world.allocations[other]);
    }
    hide ModelsOf;
  }

  lemma ModelsOfListed(a: Allocation)
    requires WellFormed(a)
    ensures NoRepeats(ModelsOf(a))
    ensures forall m :: m in ModelsOf(a) <==> Some(m) in a.models
  {
    var known := KnownModels(a.attemptEntries);
    KnownModelsListed(a.attemptEntries);
    DistinctElements(known);
    SortKeeps(Distinct(known));
    forall m ensures m in ModelsOf(a) <==> m in known {
      assert m in Elements(ModelsOf(a)) <==> m in Elements(known);
    }
  }

  ghost function ReportedModels(ledger: Ledger, owner: Owner): set<string>
    requires owner in ledger.world.allocations
  {
    if ProviderCostOf(ledger, owner).Reported? then Elements(ProviderCostOf(ledger, owner).models) else {}
  }

  lemma ReportedModelsRanAlone(ledger: Ledger, o: Owner)
    requires ledger.Valid() && o in ledger.world.allocations
    ensures forall m :: m in ReportedModels(ledger, o) ==>
      m in ModelsOf(ledger.world.allocations[o]) && RanAlone(ledger, o, m)
  {
    ReportedExactlyWhen(ledger, o);
  }

  /** No model's provider count is reported under two owners, and none ran before the attempt. */
  lemma ReportedModelsExclusive(ledger: Ledger, a: Owner, b: Owner)
    requires ledger.Valid() && a in ledger.world.allocations && b in ledger.world.allocations && a != b
    ensures ReportedModels(ledger, a) !! ReportedModels(ledger, b)
    ensures forall m :: m in ReportedModels(ledger, a) ==>
      ledger.modelsBeforeAttempt.Some? && m !in ledger.modelsBeforeAttempt.value
  {
    hide ReportedModels;
    ReportedModelsRanAlone(ledger, a);
    ReportedModelsRanAlone(ledger, b);
  }

  ghost function ReportedCount(ledger: Ledger): Owner -> Count {
    (o: Owner) =>
      if o in ledger.world.allocations && ProviderCostOf(ledger, o).Reported?
      then Count(ProviderCostOf(ledger, o).costUsd, 0, 0, {}) else ZERO
  }

  ghost function ReportedSets(ledger: Ledger, owners: seq<Owner>): seq<set<string>>
    requires forall o :: o in owners ==> o in ledger.world.allocations
  {
    seq(|owners|, i requires 0 <= i < |owners| => ReportedModels(ledger, owners[i]))
  }

  lemma ReportedCostIsItsModels(ledger: Ledger, o: Owner)
    requires ledger.Valid() && o in ledger.world.allocations
    ensures ReportedCount(ledger)(o).cost
         == SumWhere(ledger.modelUsage.names, ReportedModels(ledger, o), UsageCount(ledger.modelUsage)).cost
  {
    var names := ledger.modelUsage.names;
    if ProviderCostOf(ledger, o).Reported? {
      ReportedExactlyWhen(ledger, o);
      var models := ProviderCostOf(ledger, o).models;
      ModelsOfListed(ledger.world.allocations[o]);
      WhereElements(names, Elements(models));
      assert Elements(models) <= Elements(names);
      assert Elements(names) * Elements(models) == Elements(models);
      SumSameElements(models, Where(names, Elements(models)), UsageCount(ledger.modelUsage));
    } else {
      WhereNone(names, {});
    }
  }

  lemma {:induction false} ReportedCostsAddUp(ledger: Ledger, owners: seq<Owner>)
    requires ledger.Valid() && forall o :: o in owners ==> o in ledger.world.allocations
    ensures Sum(owners, ReportedCount(ledger)).cost
         == SumOfSets(ledger.modelUsage.names, ReportedSets(ledger, owners), UsageCount(ledger.modelUsage)).cost
  {
    hide ReportedModels, ReportedCount, UsageCount;
    if owners != [] {
      assert owners[0] in owners;
      ReportedCostsAddUp(ledger, owners[1..]);
      ReportedCostIsItsModels(ledger, owners[0]);
      assert ReportedSets(ledger, owners)[1..] == ReportedSets(ledger, owners[1..]);
    }
  }

  /** Together the agents are never given more than the provider counted. */
  lemma ReportedNeverExceedsUsage(ledger: Ledger)
    requires ledger.Valid()
    ensures Sum(ledger.world.order, ReportedCount(ledger)).cost
         <= Sum(ledger.modelUsage.names, UsageCount(ledger.modelUsage)).cost
  {
    var owners, names := ledger.world.order, ledger.modelUsage.names;
    forall o | o in owners ensures o in ledger.world.allocations {
      assert o in Elements(owners);
    }
    var sets := ReportedSets(ledger, owners);
    forall i, j | 0 <= i < j < |sets| ensures sets[i] !! sets[j] {
      ReportedModelsExclusive(ledger, owners[i], owners[j]);
    }
    ReportedCostsAddUp(ledger, owners);
    SumOfDisjointSets(names, sets, UsageCount(ledger.modelUsage));
    SumWhereAtMost(names, UnionOf(sets), UsageCount(ledger.modelUsage));
  }

  // ---- by model

  ghost function EntryCount(costs: map<int, RequestCost>): RequestEntry -> Count {
    (e: RequestEntry) => LineCount(costs)(e.line)
  }

  function OnModel(entries: seq<RequestEntry>, model: string): set<RequestEntry> {
    set e | e in entries && e.model == Some(model)
  }

  /** The entries that name no model, or one that has no row. */
  ghost function OffRows(entries: seq<RequestEntry>, rows: seq<string>): set<RequestEntry> {
    set e | e in entries && (e.model.None? || e.model.value !in rows)
  }

  lemma {:induction false} SumByLine(entries: seq<RequestEntry>, byLine: int -> Count, byEntry: RequestEntry -> Count)
    requires forall e :: e in entries ==> byEntry(e) == byLine(e.line)
    ensures Sum(EntryLines(entries), byLine) == Sum(entries, byEntry)
  {
    if entries != [] {
      SumByLine(entries[1..], byLine, byEntry);
      assert EntryLines(entries)[1..] == EntryLines(entries[1..]);
    }
  }

  lemma EntriesAsLines(entries: seq<RequestEntry>, costs: map<int, RequestCost>)
    ensures Sum(EntryLines(entries), LineCount(costs)) == Sum(entries, EntryCount(costs))
  {
    hide LineCount, Sum;
    SumByLine(entries, LineCount(costs), EntryCount(costs));
  }

  ghost function KnownEverywhere(world: World, owners: seq<Owner>): seq<string> {
    if owners == [] then []
    else
      (if owners[0] in world.allocations then KnownModels(world.allocations[owners[0]].attemptEntries) else [])
      + KnownEverywhere(world, owners[1..])
  }

  /** The models with a row: those the provider counted and those a spending request named. */
  ghost function RowModels(ledger: Ledger): seq<string> {
    SortStrings(Distinct(ledger.modelUsage.names + KnownEverywhere(ledger.world, ledger.world.order)))
  }

  ghost function RowPart(model: string, a: Allocation): Tally {
    TallyOf(EntryLines(Where(a.attemptEntries, OnModel(a.attemptEntries, model))), a.costs)
  }

  ghost function RowParts(ledger: Ledger, model: string, owners: seq<Owner>): seq<Tally>
    requires forall o :: o in owners ==> o in ledger.world.allocations
  {
    seq(|owners|, i requires 0 <= i < |owners| => RowPart(model, ledger.world.allocations[owners[i]]))
  }

  ghost function RowReasons(ledger: Ledger, missing: seq<string>): seq<string> {
    missing + ledger.unreadable + if ledger.unmodeled then [UNMODELED_REQUEST] else []
  }

  ghost function RowTally(ledger: Ledger, missing: seq<string>, model: string): Tally
    requires ledger.Valid()
  {
    assert forall o :: o in ledger.world.order ==> o in Elements(ledger.world.order);
    Summed(RowParts(ledger, model, ledger.world.order), RowReasons(ledger, missing))
  }

  ghost function ModelPart(world: World, model: string): Owner -> Count {
    (o: Owner) =>
      if o in world.allocations then
        var a := world.allocations[o];
        SumWhere(a.attemptEntries, OnModel(a.attemptEntries, model), EntryCount(a.costs))
      else ZERO
  }

  ghost function OffRowPart(world: World, rows: seq<string>): Owner -> Count {
    (o: Owner) =>
      if o in world.allocations then
        var a := world.allocations[o];
        SumWhere(a.attemptEntries, OffRows(a.attemptEntries, rows), EntryCount(a.costs))
      else ZERO
  }

  ghost function EntriesPart(world: World): Owner -> Count {
    (o: Owner) =>
      if o in world.allocations then Sum(world.allocations[o].attemptEntries, EntryCount(world.allocations[o].costs))
      else ZERO
  }

  ghost function RowCount(ledger: Ledger): string -> Count {
    (m: string) => Sum(ledger.world.order, ModelPart(ledger.world, m))
  }

  lemma RowPartCounts(model: string, a: Allocation)
    ensures RowPart(model, a).Value()
         == SumWhere(a.attemptEntries, OnModel(a.attemptEntries, model), EntryCount(a.costs))
  {
    var entries := Where(a.attemptEntries, OnModel(a.attemptEntries, model));
    TallyCountsItsLines(EntryLines(entries), a.costs);
    EntriesAsLines(entries, a.costs);
  }

  lemma {:induction false} RowPartsCount(ledger: Ledger, model: string, owners: seq<Owner>)
    requires forall o :: o in owners ==> o in ledger.world.allocations
    ensures Sum(RowParts(ledger, model, owners), TallyValue()) == Sum(owners, ModelPart(ledger.world, model))
  {
    if owners != [] {
      assert owners[0] in owners;
      RowPartsCount(ledger, model, owners[1..]);
      assert RowParts(ledger, model, owners)[1..] == RowParts(ledger, model, owners[1..]);
      RowPartCounts(model, ledger.world.allocations[owners[0]]);
    }
  }

  /** A model's row counts, over every owner, the entries that name it, beside the reasons every row carries. */
  lemma RowTallyCounts(ledger: Ledger, missing: seq<string>, model: string)
    requires ledger.Valid()
    ensures RowTally(ledger, missing, model).Value()
         == ReasonOnly(Elements(RowReasons(ledger, missing))).Plus(RowCount(ledger)(model))
  {
    var owners := ledger.world.order;
    forall o | o in owners ensures o in ledger.world.allocations {
      assert o in Elements(owners);
    }
    RowPartsCount(ledger, model, owners);
    SummedAddsUp(RowParts(ledger, model, owners), RowReasons(ledger, missing));
  }

  lemma OffRowsSplit(world: World, rows: seq<string>, model: string, o: Owner)
    requires model !in rows
    ensures OffRowPart(world, rows)(o) == ModelPart(world, model)(o).Plus(OffRowPart(world, rows + [model])(o))
  {
    if o in world.allocations {
      var a := world.allocations[o];
      var on, off := OnModel(a.attemptEntries, model), OffRows(a.attemptEntries, rows + [model]);
      assert OffRows(a.attemptEntries, rows) == on + off;
      SumWhereUnion(a.attemptEntries, on, off, EntryCount(a.costs));
    } else {
      PlusZero(ZERO);
    }
  }

  lemma NoRowsYet(world: World, owners: seq<Owner>)
    ensures Sum(owners, OffRowPart(world, [])) == Sum(owners, EntriesPart(world))
  {
    forall o | o in owners ensures OffRowPart(world, [])(o) == EntriesPart(world)(o) {
      if o in world.allocations {
        var a := world.allocations[o];
        WhereAll(a.attemptEntries, OffRows(a.attemptEntries, []));
      }
    }
    SumCongruent(owners, OffRowPart(world, []), EntriesPart(world));
  }

  lemma OneMoreRow(ledger: Ledger, front: seq<string>, last: string)
    requires last !in front
    ensures var world := ledger.world;
      Sum(world.order, OffRowPart(world, front))
        == RowCount(ledger)(last).Plus(Sum(world.order, OffRowPart(world, front + [last])))
  {
    var world := ledger.world;
    forall o | o in world.order
      ensures OffRowPart(world, front)(o) == ModelPart(world, last)(o).Plus(OffRowPart(world, front + [last])(o))
    {
      OffRowsSplit(world, front, last, o);
    }
    SumPlus(world.order, ModelPart(world, last), OffRowPart(world, front + [last]), OffRowPart(world, front));
  }

  lemma {:induction false} RowsAndTheRest(ledger: Ledger, rows: seq<string>)
    requires NoRepeats(rows)
    ensures Sum(rows, RowCount(ledger)).Plus(Sum(ledger.world.order, OffRowPart(ledger.world, rows)))
         == Sum(ledger.world.order, EntriesPart(ledger.world))
  {
    hide OffRowPart, RowCount, EntriesPart;
    var world := ledger.world;
    if rows == [] {
      NoRowsYet(world, world.order);
      PlusZero(Sum(world.order, EntriesPart(world)));
    } else {
      var n := |rows| - 1;
      var front, last := rows[..n], rows[n];
      RowsAndTheRest(ledger, front);
      assert rows == front + [last];
      SumSnoc(front, last, RowCount(ledger));
      OneMoreRow(ledger, front, last);
      PlusAssociates(Sum(front, RowCount(ledger)), RowCount(ledger)(last), Sum(world.order, OffRowPart(world, rows)));
    }
  }

  ghost predicate LinesDistinct(world: World) {
    forall o :: o in world.allocations ==> NoRepeats(EntryLines(world.allocations[o].attemptEntries))
  }

  /** The reasons of the unreadable lines of an owner's attempt. */
  ghost function UnreadableOf(world: World, o: Owner): set<string> {
    if o in world.allocations then set each | each in world.allocations[o].unreadable :: each.reason else {}
  }

  ghost function UnreadablePart(world: World): Owner -> Count {
    (o: Owner) => ReasonOnly(UnreadableOf(world, o))
  }

  ghost function UnreadableAnywhere(world: World): set<string> {
    set o, each | o in world.allocations && each in world.allocations[o].unreadable :: each.reason
  }

  ghost function UnreadableAmong(world: World, owners: seq<Owner>): set<string> {
    if owners == [] then {} else UnreadableOf(world, owners[0]) + UnreadableAmong(world, owners[1..])
  }

  lemma OwnAgainstEntries(world: World, o: Owner)
    requires o in world.allocations && WellFormed(world.allocations[o])
    ensures OwnCount(world)(o).requests <= EntriesPart(world)(o).requests
    ensures OwnCount(world)(o).requests == EntriesPart(world)(o).requests <==>
      NoRepeats(EntryLines(world.allocations[o].attemptEntries))
    ensures NoRepeats(EntryLines(world.allocations[o].attemptEntries)) ==>
      OwnCount(world)(o) == UnreadablePart(world)(o).Plus(EntriesPart(world)(o))
  {
    var a := world.allocations[o];
    var lines := EntryLines(a.attemptEntries);
    OwnTallyCountsEverything(a);
    EntriesAsLines(a.attemptEntries, a.costs);
    SumRequests(a.requestLines, a.costs);
    SumRequests(lines, a.costs);
    DistinctShorter(lines);
    DistinctElements(lines);
    if NoRepeats(lines) {
      DistinctOfDistinct(lines);
    }
  }

  lemma {:induction false} UnreadableAddsUp(world: World, owners: seq<Owner>)
    ensures Sum(owners, UnreadablePart(world)) == ReasonOnly(UnreadableAmong(world, owners))
  {
    if owners != [] {
      UnreadableAddsUp(world, owners[1..]);
      hide UnreadableOf;
    }
  }

  lemma {:induction false} UnreadableAmongMember(world: World, owners: seq<Owner>, reason: string)
    ensures reason in UnreadableAmong(world, owners) <==> exists o :: o in owners && reason in UnreadableOf(world, o)
  {
    if owners != [] {
      UnreadableAmongMember(world, owners[1..], reason);
      hide UnreadableOf;
      assert owners[0] in owners;
      if o :| o in owners[1..] && reason in UnreadableOf(world, o) {
        assert o in owners;
      }
      if o :| o in owners && reason in UnreadableOf(world, o) {
        assert o == owners[0] || o in owners[1..];
      }
    }
  }

  lemma UnreadableOfAll(world: World)
    requires world.Valid()
    ensures Sum(world.order, UnreadablePart(world)) == ReasonOnly(UnreadableAnywhere(world))
  {
    OrderMembers(world);
    UnreadableAddsUp(world, world.order);
    forall reason ensures reason in UnreadableAmong(world, world.order) <==> reason in UnreadableAnywhere(world) {
      UnreadableAmongMember(world, world.order, reason);
      if o :| o in world.order && reason in UnreadableOf(world, o) {
        var each :| each in world.allocations[o].unreadable && each.reason == reason;
      }
      if reason in UnreadableAnywhere(world) {
        var o, each :| o in world.allocations && each in world.allocations[o].unreadable && each.reason == reason;
        assert o in world.order && reason in UnreadableOf(world, o);
      }
    }
  }

  lemma {:induction false} SumRequests(lines: seq<int>, costs: map<int, RequestCost>)
    ensures Sum(lines, LineCount(costs)).requests == |lines|
  {
    if lines != [] {
      SumRequests(lines[1..], costs);
    }
  }

  lemma {:induction false} OwnersAgainstEntries(ledger: Ledger, owners: seq<Owner>)
    requires ledger.Valid() && forall o :: o in owners ==> o in ledger.world.allocations
    ensures var w := ledger.world;
      && Sum(owners, OwnCount(w)).requests <= Sum(owners, EntriesPart(w)).requests
      && (Sum(owners, OwnCount(w)).requests == Sum(owners, EntriesPart(w)).requests <==>
            forall o :: o in owners ==> NoRepeats(EntryLines(w.allocations[o].attemptEntries)))
  {
    if owners != [] {
      assert owners[0] in owners;
      OwnersAgainstEntries(ledger, owners[1..]);
      OwnAgainstEntries(ledger.world, owners[0]);
    }
  }

  /**
   * The rows by model and the entries without a row are the whole calculated cost, beside the
   * reasons of unreadable lines. The premise is exact: the request counts agree only if no
   * allocation lists a line twice.
   */
  lemma ByModelAddsUp(ledger: Ledger)
    requires ledger.Valid()
    ensures var rows := RowModels(ledger);
      var w := ledger.world;
      var byModel := Sum(rows, RowCount(ledger)).Plus(Sum(w.order, OffRowPart(w, rows)));
      && (LinesDistinct(w) ==> Sum(w.order, OwnCount(w)) == ReasonOnly(UnreadableAnywhere(w)).Plus(byModel))
      && (LinesDistinct(w) <==> byModel.requests == Sum(w.order, OwnCount(w)).requests)
  {
    var w := ledger.world;
    var all := ledger.modelUsage.names + KnownEverywhere(w, w.order);
    DistinctElements(all);
    SortKeeps(Distinct(all));
    RowsAndTheRest(ledger, RowModels(ledger));
    OrderMembers(w);
    OwnersAgainstEntries(ledger, w.order);
    if LinesDistinct(w) {
      UnreadableOfAll(w);
      forall o | o in w.order ensures OwnCount(w)(o) == UnreadablePart(w)(o).Plus(EntriesPart(w)(o)) {
        OwnAgainstEntries(w, o);
      }
      SumPlus(w.order, UnreadablePart(w), EntriesPart(w), OwnCount(w));
    }
  }

  lemma {:induction false} KnownEverywhereListed(world: World, owners: seq<Owner>, o: Owner, m: string)
    requires o in owners && o in world.allocations && m in KnownModels(world.allocations[o].attemptEntries)
    ensures m in KnownEverywhere(world, owners)
  {
    if owners[0] != o {
      KnownEverywhereListed(world, owners[1..], o, m);
    }
  }

  /** A named model without a row spent nothing: each of its entries is complete, with no tokens. */
  lemma NoRowMeansNothingSpent(ledger: Ledger, o: Owner, e: RequestEntry)
    requires ledger.Valid() && o in ledger.world.allocations && e in ledger.world.allocations[o].attemptEntries
    requires e.model.Some? && e.model.value !in RowModels(ledger)
    ensures e.usage == CompleteUsage(0, 0)
    ensures e.model.value !in ledger.modelUsage.names
  {
    var w := ledger.world;
    var all := ledger.modelUsage.names + KnownEverywhere(w, w.order);
    DistinctElements(all);
    SortKeeps(Distinct(all));
    assert e.model.value !in Elements(RowModels(ledger));
    assert e.model.value !in all;
    if Spent(e) {
      KnownModelsListed(w.allocations[o].attemptEntries);
      assert o in Elements(w.order);
      KnownEverywhereListed(w, w.order, o, e.model.value);
    }
  }
}
