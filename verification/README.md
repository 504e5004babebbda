# Agent cost allocation and experiment evidence

A Dafny model of the part of the benchmark that decides what an experiment's numbers mean:
which agent and skill a request's cost belongs to, what an estimate says about two arms, when
arms may be compared at all, and when recorded evidence is intact.

- **Cost allocation** (`Transcripts`, `ParentLinks`, `LaunchLinks`, `AgentTree`, `SkillWindows`,
  `AgentTally`, `AgentRequestCost`, `AgentDescendants`, `AgentForest`, `AgentProvider`,
  `AgentCost`, `AgentLoops`, `ReturnedAllocation`, with `Counts` for sums of costs). Agents are
  linked to parents by what transcripts and metadata say, so links may dangle or run in a circle.
  A visit that remembers its totals turns them into totals including descendants. Totals are
  specified by recursion (`AgentDescendants.Total`), and then, without recursion, by the set of
  participants whose chain leads up to an agent (`AgentForest.Below`). `AllocationEvidence` and
  `ProviderEvidence` say what the parts of an allocation are in terms of the input's rows, files
  and request series: who takes part, which window a request falls in, when a provider cost is given.
- **Estimates** (`Estimator`, `SingleCase`). Paired deltas over cases, the Wilson interval, and the
  spread of a single case, over exact reals.
- **The shared exclude file** (`Lines`, `WorkflowExcludes`, `ExcludeProtocol`). Processes that read
  a snapshot and later append are a transition system; its theorem is about every interleaving.
- **Comparability** (`ComparisonEvidence`, `ControlledInputs`, `Comparability`, `ReportArm`,
  `ComparisonVerdict`). The gate compares arms with one reference arm; the theorems are about every
  pair of arms, about the report built from what the gate accepted, and about the recorded fields
  the verdict comes down to.
- **Smaller parts**: `OutputLines` (a stream cut into lines), `CheckpointStorage` (the snapshot
  manifest), `CorpusFileChanges` and `CheckpointStaleness` (which corpus files changed, and the
  walk down a chain of stages), `InheritedConfiguration` and `InheritedFindings` (what sessions
  inherited and what is listed of it, with `JsonText` for its canonical keys), `BaselineCorpus` (the corpus without the skill under test).
  `Wrappers`, `Collections` and `Ordering` hold what several of these use.

Code that changes state or loops is a class or a method proved against a specification function;
the lemmas are about those functions.

## What the proofs found

Most of what the repository promises holds on all inputs. These statements hold only under a
condition, proved exact, with an input for which they fail:

- The skills' totals, the shared and unattributed remainders and the children launched elsewhere
  add up to an agent's total outside a loop. In a loop they do so exactly when no child of the
  agent that takes part made a request (`AgentLoops.SkillsInALoop`). In an attempt whose one
  sub-agent is named by its metadata as its own parent, and whose only call is answered by a
  result that names itself, the agent's skill costs twice what the agent does
  (`AgentLoops.SelfParentedSkillExceedsTotal`).
- `launchCallLine` is documented as a line of the parent's transcript
  (`src/benchmark/agent-tree-contract.ts:88`). Where the metadata does not decide the parent, it is
  exactly when the first transcript to locate the answered tool use is the first to name the agent
  (`LaunchLinks.CallLineIsTheParents`); two transcripts of one row each for which it is not are in
  `LaunchLinks.CallLineOfAnotherTranscript`.
- In session comparisons an unjudged arm matches any judge. If the reference arm is unjudged, two
  other arms judged under different contracts both pass the gate
  (`Comparability.SessionHubJudges`, `Comparability.SessionContractsEveryPair`,
  `Comparability.UnjudgedHubHidesADifference`). Groups merged into one arm do not have this gap,
  because the gate reads the merged arm's contract (`ReportArm.AcceptedSessionGroupsAgree`).
- The stage and pipeline judge check reads the mode of its left arm only. Swapping the arms changes
  its verdict exactly when the modes differ, the stage judge contracts are one known contract and
  the final judge contracts are not (`ControlledInputs.JudgeCheckSymmetric`,
  `Comparability.JudgeCheckOneWay`). The gate compares modes first, so it never shows.
- `onlyCorpusFiles` is documented as stale only because corpus files changed, "files this stage
  read, and files that staled its upstream" (`src/benchmark/checkpoint-staleness.ts:42-46`). The
  code looks at the stage itself and at the first stale stage before it. Read as a statement about
  every stage before it, which is one reading, the documentation fails when a stage in between ran
  on another model (`CheckpointStaleness.OnlyCorpusFilesAgainstItsDocumentation`,
  `CheckpointStaleness.ModelChangeHidden`).

## Premises

- Transcript rows have ascending lines (`AgentCost.RowsAscend`), and costs the provider counted are
  not negative (`AgentProvider.ModelUsage.Valid`). Request series are those of their transcripts
  (`AgentTree.AsRead`): a series knows its boundary exactly when the attempt has one, and each
  request is opened by a row of its own (`src/benchmark/session-history-requests.ts:30,100`,
  `src/benchmark/session-history-request-groups.ts:23`), so no allocation lists a line twice
  (`AgentCost.LinesAreDistinct`). The rows by model need that: they and the entries without a row
  add up to the calculated request count exactly when it holds (`AgentProvider.ByModelAddsUp`).
  That request lines are the keys of the costs, that
  windows hold an invocation and that `windowAt` returns one of the windows are proved, not assumed.
- `sqrt` is any function with `sqrt(x) >= 0` and `sqrt(x) * sqrt(x) == x` on `x >= 0`
  (`Estimator.IsSqrt`).
- Names collate by any total order where an order is needed at all
  (`ComparisonEvidence.IsTotalOrder`); the canonical key of a configuration tells its name-to-digest
  map under any collation (`InheritedConfiguration.CanonicalTells`).
- Recorded setups and delivery rules are names that are not empty and hold no comma
  (`ComparisonVerdict.PlainCases`); the schemas know no others
  (`src/benchmark/session-record-context-schema.ts:82-86`, `src/benchmark/corpus-delivery.ts:16-21`).
- Digests of inherited variables have the form the record schema demands, 64 hexadecimal digits
  (`InheritedConfiguration.Conforms`, `src/benchmark/session-record-context-schema.ts:20-22`).
- A process of the exclude protocol writes its whole block in one append; exclude patterns are
  single lines, which `WorkflowExcludes.PatternsDistinct` proves of those the harness makes.
- Merging starts from groups as loading leaves them: each alone, its reps carrying its id, one rep
  per record (`ReportArm.Loaded`). Groups record at least two reps, named by group and ordinal
  (`ComparisonEvidence.AsRecorded`, `src/benchmark/confirmation-group-record-schema.ts:44,66-72`).
  The report needs both: a row passes its rep checks exactly when, besides the rep count, no two
  reps share an id and no merged group is empty (`ReportArm.ProducerMeetsValidator`).

## Model

| member | source | states |
|---|---|---|
| ParentLinks.LoopsBack | src/benchmark/agent-cost-descendants.ts:60-79 | the walk with a seen set ends, and says an agent loops exactly when its chain of parent links never ends |
| ParentLinks.LoopsAbove | src/benchmark/agent-cost-descendants.ts:60-79 | an owner loops exactly when the one its link names does, so every child of a non-looping agent is non-looping |
| ParentLinks.RepeatLoops | src/benchmark/agent-cost-descendants.ts:68-76 | meeting one agent twice on a chain is enough to know the chain never ends |
| LaunchLinks.LaunchIndexBuilder.constructor | src/benchmark/agent-parent-links.ts:41-49 | a new index locates no call and names no agent |
| LaunchLinks.LaunchIndexBuilder.AddTranscript | src/benchmark/agent-parent-links.ts:44-49 | adding a transcript keeps every entry already there and adds each new key with its first value |
| LaunchLinks.LaunchIndexBuilder.AddCalls | src/benchmark/agent-parent-links.ts:53-59 | one row's tool uses are located unless their id was located before |
| LaunchLinks.LaunchIndexBuilder.AddResult | src/benchmark/agent-parent-links.ts:60-70 | one row names its agent unless the agent was named before |
| LaunchLinks.BuildLaunchIndex | src/benchmark/agent-parent-links.ts:72-79 | the index of all transcripts is the first-wins map of all their calls and naming results in reading order |
| LaunchLinks.FirstWinsKeepsTheFirst | src/benchmark/agent-parent-links.ts:53-70 | of several calls or results with one key, the index holds the first |
| LaunchLinks.CallFromFirst | src/benchmark/agent-parent-links.ts:53-79 | a located call is from the first transcript, in reading order, that holds its tool use, and every tool use held is located |
| LaunchLinks.ResultFromFirst | src/benchmark/agent-parent-links.ts:60-79 | a naming result is from the first transcript that names its agent, and every agent named has one |
| LaunchLinks.CallLineIsTheParents | src/benchmark/agent-parent-links.ts:81-130 | a recorded call line is of a call the parent made where the metadata decides the parent, and otherwise exactly when the first transcript to locate the answered tool use is the first to name the agent |
| LaunchLinks.CallLineOfAnotherTranscript | src/benchmark/agent-parent-links.ts:122-129 | from two transcripts of one row each, an agent's parent is one sub-agent and its call line is a line of the root's transcript |
| LaunchLinks.CallOfFirstRow | src/benchmark/agent-parent-links.ts:44-59 | a located call has the owner, the line and the name of the first row, in reading order, that holds its tool use |
| LaunchLinks.ResultOfFirstRow | src/benchmark/agent-parent-links.ts:44-70 | a naming result has the owner, the line and the first answered tool use of the first row that names its agent |
| LaunchLinks.LaunchIsTheRow | src/benchmark/agent-parent-links.ts:81-130 | the launch recorded for an agent is the first row holding the tool use its metadata names, when that use is located and no parent is recorded, and otherwise the first row that names the agent; there is none exactly when there is no such row |
| LaunchLinks.ParentIsTheLauncher | src/benchmark/agent-parent-links.ts:81-136 | the parent is the one the metadata records, or else the owner of the launching row, and the basis says which of the ways it is known |
| LaunchLinks.AnsweredCallMeans | src/benchmark/agent-parent-links.ts:86-90 | the answered call is made by the first row holding the tool use that the first row naming the agent answers, and there is one exactly when there is such a row |
| LaunchLinks.CallLineIsTheRow | src/benchmark/agent-parent-links.ts:91-130 | the call line is the launching row's where a tool use decides, and otherwise the answered row's, unless a recorded parent did not make that call |
| LaunchLinks.InheritedMeans | src/benchmark/agent-parent-links.ts:143-170 | on any link graph, with the seen guard, an agent is inherited exactly when some agent on its chain, itself included, was launched by the root within the prefix |
| LaunchLinks.InheritedClosedDownward | src/benchmark/agent-parent-links.ts:143-170 | whatever lies below an inherited agent is inherited |
| Ordering.AtMostMeans | src/benchmark/agent-tree.ts:37-39 | of two strings the one that ends, or has the smaller character, where they first part is sorted first |
| AgentTree.TreeHoldsEveryAgentOnce | src/benchmark/agent-tree.ts:28-68 | the tree holds each agent a file or a naming result gives, once, and no other |
| AgentTree.TranscriptOwnersDistinct | src/benchmark/agent-tree.ts:28-40 | each transcript is read under an owner of its own |
| AgentTree.NoInheritedAncestor | src/benchmark/agent-tree.ts:75-101 | no agent that is not inherited has an inherited agent above it |
| AgentTree.FilesMean | src/benchmark/agent-tree.ts:29 | an agent has files kept exactly when a file has its id, and the last of them counts |
| AgentTree.TranscriptsMean | src/benchmark/agent-tree.ts:30-35 | the transcripts read are the root's, first, and that of each agent's file that counts |
| AgentTree.InheritedExactlyWhen | src/benchmark/agent-parent-links.ts:143-170 | an agent of the tree is inherited exactly when an agent up its chain of parents, itself included, was launched by a row of the root's transcript at or before the prefix |
| AgentTree.AgentMeans | src/benchmark/agent-tree.ts:75-101 | an agent is unavailable exactly when no file has its id; it reads the file's series as of the attempt or as of before it, and is fresh exactly when it is not inherited and its file starts fresh |
| AgentTree.AgentLinked | src/benchmark/agent-tree.ts:40-49 | an agent's parent and launch call line are those of the link read off the transcripts and its file's metadata |
| SkillWindows.DeliveryAt | src/benchmark/skill-cost-windows.ts:76-110 | a delivery always holds an invocation, each at the row's line |
| SkillWindows.DeliveryMeans | src/benchmark/skill-cost-windows.ts:76-110 | a row delivers exactly when it answers a located call or opens skill directories unasked, and delivers the call's skill for the call's request or every such directory for none |
| SkillWindows.OpenAndCloseWindows | src/benchmark/skill-cost-windows.ts:118-164 | the loop with an open window gives the windows of the rows taken one by one, which `SkillWindows.WindowsAreRuns` reads off the transcript |
| SkillWindows.WindowsInOrder | src/benchmark/skill-cost-windows.ts:118-164 | the windows of any transcript follow each other without overlap, none empty, and only the last may be open |
| SkillWindows.AtMostOneWindow | src/benchmark/skill-cost-windows.ts:166-173 | a line lies in at most one window, so the window found for it is the only one |
| SkillWindows.InAWindowMeans | src/benchmark/skill-cost-windows.ts:112-173 | a line lies in a window exactly when the last row of the attempt, at or before it, that is a delivery, a prompt or an interruption is a delivery |
| SkillWindows.WindowsAreRuns | src/benchmark/skill-cost-windows.ts:112-164 | each window opens at a delivery, invokes what it and the deliveries answering the same request before any other boundary invoke, in order, and closes at that boundary; every delivery that joins none before it opens one |
| AgentTally.TallyLines | src/benchmark/agent-cost-tally.ts:28-47 | the counting loop computes the tally of the lines, each reason once |
| AgentTally.TallyCountsItsLines | src/benchmark/agent-cost-tally.ts:28-47 | a tally is the sum of what its lines count singly: cost, priced, requests and reasons |
| AgentTally.CompleteMeansAllPriced | src/benchmark/agent-cost-tally.ts:28-47 | there is no reason against a tally exactly when every request it counts is priced |
| AgentTally.SummedAddsUp | src/benchmark/agent-cost-tally.ts:53-68 | a sum of tallies adds costs and counts and unites the reasons, those of missing parts included |
| AgentRequestCost.BuildRequestLocator | src/benchmark/agent-request-cost.ts:38-58 | each request id is located at the line of its first entry, and every id is located |
| AgentRequestCost.CostsByLine | src/benchmark/session-history-request-pricing.ts:41-58 | the costs' keys are the attempt entries' lines, each its own price when lines are distinct |
| AgentRequestCost.AllocateWellFormed | src/benchmark/agent-request-cost.ts:60-87 | every allocation's request lines are its costs' keys without repeats, every window named exists and holds an invocation |
| AgentRequestCost.EachRequestListedOnce | src/benchmark/agent-request-cost.ts:89-96 | the lines listed under single-skill windows, as shared and as unattributed are together the request lines, each exactly once |
| AgentRequestCost.TallyWhereUnion | src/benchmark/agent-request-cost.ts:129-139 | tallies over disjoint classes of windows add up to the tally over both, reasons of unreadable lines included |
| AgentRequestCost.OwnTallyCountsEverything | src/benchmark/agent-request-cost.ts:141-143 | an agent's own tally counts every one of its requests once and carries every unreadable line's reason |
| AgentRequestCost.WindowsPartitionOwn | src/benchmark/agent-request-cost.ts:129-143 | an agent's own cost is the sum of its skills', shared and unattributed |
| AgentRequestCost.KnownModelsListed | src/benchmark/agent-request-cost.ts:104-126 | the known models are those of spending entries that name one |
| AllocationEvidence.AllocationsMean | src/benchmark/agent-cost-participants.ts:23-61 | an owner is allocated exactly when it is the root or an agent of the attempt with a file: the root from the end of the prefix, an agent from its first row, each on its own rows and series |
| AllocationEvidence.RequestLinesMean | src/benchmark/agent-request-cost.ts:60-87 | the request lines of an allocation are the lines of the attempt's entries |
| AllocationEvidence.PlacedByLine | src/benchmark/agent-request-cost.ts:60-87 | a request is under the window that covers its line, and under none exactly when the last boundary row at or before it in the attempt delivers nothing |
| AllocationEvidence.UnreadableMeans | src/benchmark/agent-request-cost.ts:68-81 | the unreadable lines kept are those of the attempt, each with its reason and the window it lies in |
| AllocationEvidence.LocateMeans | src/benchmark/agent-request-cost.ts:38-58 | a row belongs to the request whose id it carries, found at the id's first entry, or without an id to its own line |
| AllocationEvidence.LaunchedUnderMeans | src/benchmark/agent-cost.ts:79-89 | a child was launched under a window exactly when the first line of the request its call row belongs to is a request line of the attempt and lies in the window |
| AllocationEvidence.ModelsMean | src/benchmark/agent-request-cost.ts:104-121 | an allocation's models are those its attempt entries that are not complete with zero tokens name, a missing name among them |
| AgentDescendants.TotalsVisit.constructor | src/benchmark/agent-cost-descendants.ts:87-96 | the visit starts with no totals |
| AgentDescendants.TotalsVisit.Visit | src/benchmark/agent-cost-descendants.ts:96-113 | on any link graph a visit ends, keeps every total already there, leaves only right totals and gives the visited participant one |
| AgentDescendants.DescendantTotals | src/benchmark/agent-cost-descendants.ts:87-120 | the memoised visits give each participant its recursive total, in whatever order the participants come |
| AgentDescendants.TallyDescendants | src/benchmark/agent-cost-descendants.ts:29-47 | the loop over the children collects the totals there are and a reason for each child that has none |
| AgentDescendants.DescendantTallyCounts | src/benchmark/agent-cost-descendants.ts:29-47 | own tally and children add up: each child counts its total, or the reason it has none |
| AgentDescendants.ChildrenListed | src/benchmark/agent-cost-descendants.ts:14-27 | an owner's children are the agents linked to it that are not inherited, each once |
| AgentDescendants.ChildLinksUp | src/benchmark/agent-cost-descendants.ts:14-27 | a child's link leads to the owner it is listed under, so nobody is the child of two owners |
| AgentDescendants.FreeShrinks | src/benchmark/agent-cost-descendants.ts:96-113 | outside a loop fewer agents are off the chain of a child than off its parent's, which ends the recursion |
| AgentForest.TotalCoversBelow | src/benchmark/agent-cost-descendants.ts:29-47 | outside a loop a total is exactly the own tallies of all participants reachable downward through participants, each counted once |
| AgentForest.TotalInALoop | src/benchmark/agent-cost-descendants.ts:96-113 | in a loop a total is the agent's own tally and the reason that its links loop |
| AgentForest.ChildrenApart | src/benchmark/agent-cost-descendants.ts:14-27 | two children of an owner outside a loop have nobody below them in common |
| AgentForest.TopsCoverTheForest | src/benchmark/agent-cost-descendants.ts:87-120 | the participants below the tops and the looping ones are all participants, and nobody is in two of these classes |
| AgentForest.RootIsATop | src/benchmark/agent-cost-descendants.ts:87-120 | the root is always one of the tops |
| AgentForest.ForestConserved | src/benchmark/agent-cost.ts:190-226 | all own tallies together are the totals of the tops and the own tallies of the looping agents, reasons included beside those of agents without a tally: no request is lost or counted twice |
| AgentProvider.ReportedModelsCost | src/benchmark/agent-cost-provider.ts:132-149 | the loop reports the sum of the models' counts, or the first reason a model is not the owner's alone |
| AgentProvider.ReportedCostMeans | src/benchmark/agent-cost-provider.ts:132-149 | a cost is given exactly when each model's is, and then it is their sum |
| AgentProvider.ReportedExactlyWhen | src/benchmark/agent-cost-provider.ts:76-169 | a provider cost is reported exactly when the coverage check passes (`ProviderEvidence.CoverageMeans` says when), the owner ran on some model, and each of its models was counted, was no other owner's and ran nothing before the attempt |
| ProviderEvidence.ModelsBeforeMean | src/benchmark/agent-cost-provider.ts:28-74 | the models before the attempt are known exactly when every inherited agent has a transcript, no line before the attempt is unreadable and no spending entry before it lacks a model, and are then the models of those entries |
| ProviderEvidence.CoverageMeans | src/benchmark/agent-cost-provider.ts:76-95 | nothing stands against provider costs exactly when no agent of the attempt lacks a transcript, no line of the attempt is unreadable, no spending entry of it lacks a model and the models before it are known |
| ProviderEvidence.ProviderReportsWhen | src/benchmark/agent-cost-provider.ts:76-169 | an owner is given a provider cost exactly when all that holds, it spent in the attempt, and every model it spent on was counted and was spent on by nobody else in the attempt and not before it; the cost is the sum of those models' counts |
| ProviderEvidence.ProviderRefusalSays | src/benchmark/agent-cost-provider.ts:76-169 | an owner without a provider cost is told the first that holds of: an agent without a transcript, an unreadable line, a request without a model, a prefix on unknown models, no request of its own with a model; or else of a model of its own that ran before the attempt, for another owner or uncounted |
| ProviderEvidence.ReturnedProviderMeans | src/benchmark/agent-cost-provider.ts:150-169 | so it is in every returned row |
| AgentProvider.ReportedModelsExclusive | src/benchmark/agent-cost-provider.ts:109-131 | the models reported under two owners are disjoint, and none ran before the attempt |
| AgentProvider.ReportedNeverExceedsUsage | src/benchmark/agent-cost-provider.ts:150-169 | the reported costs of all owners together never exceed what the provider counted |
| AgentProvider.RowTallyCounts | src/benchmark/agent-cost-provider.ts:171-211 | a model's row counts, over every owner, exactly the attempt entries that name the model, with their reasons beside those every row carries |
| ProviderEvidence.RowModelsMean | src/benchmark/agent-cost-provider.ts:175-182 | there is one row for each model the provider counted or a spending request of the attempt names, sorted by name |
| ProviderEvidence.RowReasonsMean | src/benchmark/agent-cost-provider.ts:193-200 | every row by model carries a reason for each agent of the attempt without a transcript and each line of the attempt that could not be read, and one when a spending request of the attempt names no model; no other |
| AgentProvider.ByModelAddsUp | src/benchmark/agent-cost-provider.ts:171-211 | rows and entries without a row add up to the own tallies of all owners when lines are distinct, reasons included beside those of unreadable lines, and the request counts agree only then |
| AgentProvider.NoRowMeansNothingSpent | src/benchmark/agent-request-cost.ts:104-121 | a named model without a row has only complete entries with zero tokens and was not counted by the provider |
| AgentCost.WorldIsValid | src/benchmark/agent-cost-participants.ts:23-61 | the participants of any tree are the root and distinct agents of the tree with a transcript, with well-formed allocations |
| AgentCost.ElsewhereMeans | src/benchmark/agent-cost.ts:64-102 | the children no skill's total includes are those whose launching request fell in no single-skill window |
| AgentCost.RowAddsUp | src/benchmark/agent-cost.ts:117-154 | skills including descendants, shared, unattributed and children launched elsewhere are the own tally and all children's totals |
| AgentCost.SkillsAddUpToTotal | src/benchmark/agent-cost.ts:117-154 | outside a loop those parts are the agent's total including descendants |
| AgentLoops.SkillsInALoop | src/benchmark/agent-cost.ts:117-154 | in a loop they are exactly when no child of the agent that takes part has a request line |
| AgentLoops.SelfParentedSkillExceedsTotal | src/benchmark/agent-cost.ts:64-102 | in the allocation of one attempt with a known boundary, whose series are those of its transcripts, an agent's total is 1 and its one skill's total is 2 |
| AgentCost.CalculatedIsTheForest | src/benchmark/agent-cost.ts:190-226 | the calculated cost over all allocations is the totals of the tops and the own tallies of the looping agents, and its reasons are theirs and those of the agents without a transcript |
| AgentCost.MissingAreUnavailable | src/benchmark/agent-cost.ts:190-226 | every child without a tally is an agent the tree lists as unavailable, so `calculated` carries its reason |
| AgentCost.CalculatedIsTheModels | src/benchmark/agent-cost.ts:190-230 | with distinct lines the calculated cost is the rows by model and the entries without one, reasons included beside those of unreadable lines |
| ReturnedAllocation.ReturnedRowsRead | src/benchmark/agent-cost.ts:182-230 | the allocation returns one row for each owner, whose readings show the owner's total and its own tally: cost, priced, requests and reasons |
| ReturnedAllocation.AvailableExactlyWhen | src/benchmark/agent-cost.ts:186-188 | there is an allocation exactly when the attempt has a boundary |
| ReturnedAllocation.ReturnedReadingsAddUp | src/benchmark/agent-cost.ts:182-230 | the returned `calculated` shows the sum of what the rows of the tops show as totals and the rows of the looping agents as their own, priced and request counts and reasons included |
| ReturnedAllocation.ReturnedCostsAddUp | src/benchmark/agent-cost.ts:182-230 | in costs a caller sees, `calculated` is the root's total, the totals of agents whose parent takes no part and the own costs of looping agents |
| ReturnedAllocation.ReturnedRowsAddUp | src/benchmark/agent-cost.ts:117-154 | in each returned row outside a loop the skills including descendants, shared, unattributed and the rows of the children launched elsewhere add up to the total, skills, shared and unattributed to its own cost, and their request lines to its own, each once |
| ReturnedAllocation.ReturnedPartsRead | src/benchmark/agent-cost.ts:117-154 | in each returned row outside a loop the total reads the sum of what those parts read, and its own reading the sum of its skills', shared and unattributed: cost, priced, requests and reasons |
| ReturnedAllocation.ReturnedModelsExclusive | src/benchmark/agent-cost-provider.ts:109-169 | no model's provider cost is reported in two returned rows, and none that ran before the attempt in any |
| ReturnedAllocation.ReturnedNeverExceedsUsage | src/benchmark/agent-cost-provider.ts:109-169 | the provider costs of all returned rows together never exceed what the provider counted |
| ReturnedAllocation.ReturnedModelsAddUp | src/benchmark/agent-cost-provider.ts:171-211 | with distinct lines the returned rows by model and the entries without a row add up to the returned `calculated` |
| ReturnedAllocation.ReturnedModelsRead | src/benchmark/agent-cost-provider.ts:171-211 | so do the readings: `calculated` reads the counts and reasons the rows by model read, those of the entries without a row, and the reasons of unreadable lines and missing agents |
| ReturnedAllocation.ReturnedRowsName | src/benchmark/agent-cost.ts:64-102 | every returned row names the agents of the attempt linked to its owner, each once, and for each window of one skill, in order, its skill, its delivery line, its request lines and the children launched in it |
| ReturnedAllocation.ReturnedModelsReport | src/benchmark/agent-cost-provider.ts:190-209 | every returned row by model reports the provider's count of the model, or none exactly when the provider counted none |
| AgentCost.LinesAreDistinct | src/benchmark/session-history-request-groups.ts:14-31 | no allocation lists a line twice, as each request is opened by a row of its own |
| Estimator.SortKeepsTotal | src/benchmark/comparison-estimator.ts:112-123 | sorting before summing changes neither sum nor number |
| Estimator.MeanPermuted | src/benchmark/comparison-estimator.ts:112-123 | a mean does not depend on the order of its observations, refusals included |
| Estimator.PairedDeltas | src/benchmark/comparison-estimator.ts:132-135 | there is one delta for each case, in order: the minuend's sum over its count less the subtrahend's |
| Estimator.PairedStandardError | src/benchmark/comparison-estimator.ts:125-149 | the standard error is not negative and its square is the sum of squared deviations of the deltas (`Estimator.PairedDeltas`) over n(n-1); the mean delta is their mean |
| Estimator.PairedPermuted | src/benchmark/comparison-estimator.ts:125-149 | reordering the cases reorders the deltas and keeps mean delta, error and refusal |
| Estimator.ObservationsPermuted | src/benchmark/comparison-estimator.ts:125-149 | reordering observations inside cases changes nothing in the estimate |
| Estimator.SwapNegates | src/benchmark/comparison-estimator.ts:125-149 | swapping the arms negates every delta and the mean delta and keeps the error |
| Estimator.ContrastsAddUp | src/benchmark/comparison-estimator.ts:125-149 | candidate minus baseline and baseline minus control add up to candidate minus control |
| SingleCase.WilsonHoldsTheScoreTest | src/benchmark/comparison-estimator.ts:151-172 | 0 <= low <= rate <= high <= 1 without either clamp acting; the interval holds exactly the proportions the score test does not reject, and its ends are the two roots of the Wilson quadratic |
| SingleCase.WilsonMirrors | src/benchmark/comparison-estimator.ts:151-172 | counting failures instead of successes gives [1 - high, 1 - low] |
| SingleCase.ProportionErrorZero | src/benchmark/comparison-estimator.ts:174-207 | a proportion estimate's error is zero exactly when each arm's attempts all ended alike |
| SingleCase.ProportionEstimateMeans | src/benchmark/comparison-estimator.ts:187-207 | the delta is the minuend's rate less the subtrahend's, and the error, not negative, has as its square the sum of p(1-p)/n over the arms |
| SingleCase.VarianceZero | src/benchmark/comparison-estimator.ts:217-233 | an arm's variance is never negative, and zero exactly for a constant arm |
| SingleCase.NoSpreadMeansConstant | src/benchmark/comparison-estimator.ts:235-265 | no observed spread is reported exactly when both arms are constant; otherwise the error is positive |
| SingleCase.MeanEstimateMeans | src/benchmark/comparison-estimator.ts:209-265 | the delta is the minuend's mean less the subtrahend's, and an error's square is the sum over the arms of the squared deviations over n(n-1) |
| SingleCase.MeanEstimatePermuted | src/benchmark/comparison-estimator.ts:250-265 | reordering the reps of each arm keeps means, delta, spread and refusal |
| SingleCase.MeanEstimateSwapped | src/benchmark/comparison-estimator.ts:250-265 | swapping the arms negates the delta and keeps the spread and the refusal |
| Lines.SplitOfJoin | src/benchmark/backlog-workflow-excludes.ts:44-49 | splitting joined lines gives the lines back |
| Lines.JoinOfSplit | src/benchmark/backlog-workflow-excludes.ts:44-49 | joining split lines gives the text back |
| WorkflowExcludes.WorkflowExcludePattern | src/benchmark/backlog-workflow-excludes.ts:13-28 | the escaping loop gives the escaped path, or refuses a path that does not fit on one line |
| WorkflowExcludes.UnescapeUndoesEscape | src/benchmark/backlog-workflow-excludes.ts:19-25 | reading the escapes back gives the path |
| WorkflowExcludes.PatternReadsBack | src/benchmark/backlog-workflow-excludes.ts:13-28 | Git reads a pattern as its path from the root with slashes for separators, closed by a slash unless it is the configuration file's |
| WorkflowExcludes.PatternsDistinct | src/benchmark/backlog-workflow-excludes.ts:13-28 | two paths have one pattern only if they are one path; a pattern is rooted and one line |
| ExcludeProtocol.ExcludeFile.Append | src/benchmark/backlog-excludes-io.ts:52-75 | an append adds the bytes the write took and reports a short write exactly when it took fewer |
| ExcludeProtocol.ExcludeFile.ExcludeWorkflowState | src/benchmark/backlog-workflow-excludes.ts:36-56 | one run alone appends the missing patterns of its own snapshot, or writes nothing |
| ExcludeProtocol.WorkflowPatternsAreGood | src/benchmark/backlog-workflow-excludes.ts:41-43 | the patterns a run brings meet what the protocol asks of patterns |
| ExcludeProtocol.MissingExactlyWhen | src/benchmark/backlog-workflow-excludes.ts:45-51 | a pattern is appended exactly when no line of the snapshot is it, with or without a carriage return at its end |
| ExcludeProtocol.AppendAddsLines | src/benchmark/backlog-excludes-io.ts:52-75 | however stale the snapshot, an append adds exactly the missing patterns as lines of their own and leaves the other lines whole |
| ExcludeProtocol.StepSafe | src/benchmark/backlog-workflow-excludes.ts:36-56 | every read and every append keeps the file's lines whole, each snapshot a whole-line prefix, and finished processes' patterns in the file |
| ExcludeProtocol.RunSafe | src/benchmark/backlog-workflow-excludes.ts:36-56 | over every interleaving of any number of processes the initial bytes stay a prefix and the lines are the initial ones followed by each append's patterns, none glued to another |
| ExcludeProtocol.FinishedStaysFinished | src/benchmark/backlog-workflow-excludes.ts:36-56 | a finished process's patterns are lines of the file, and a later run with them appends nothing |
| OutputLines.CommandOutputLines.constructor | src/benchmark/command-output-lines.ts:14-18 | nothing has arrived and nothing is delivered |
| OutputLines.CommandOutputLines.Append | src/benchmark/command-output-lines.ts:19-23 | after a chunk exactly the lines that have ended are delivered, and those delivered before stay |
| OutputLines.CommandOutputLines.DeliverTerminatedLines | src/benchmark/command-output-lines.ts:24-31 | the loop delivers every line that has ended since and stops at the open one |
| OutputLines.CommandOutputLines.Finish | src/benchmark/command-output-lines.ts:32-38 | the whole text is returned and its last open line, if not empty, delivered |
| OutputLines.ReadAll | src/benchmark/command-output-lines.ts:14-39 | however the text is cut into chunks, the lines delivered are the whole text's, once each and in order |
| OutputLines.DeliveredLinesRebuild | src/benchmark/command-output-lines.ts:14-39 | the delivered lines, each ended by a newline, are the text again, but for a last newline it may lack |
| ControlledInputs.CompareControlledFiles | src/benchmark/comparison-controlled-inputs.ts:28-48 | the loop gives the first position at which the sorted lists differ |
| ControlledInputs.NoFileDiffers | src/benchmark/comparison-controlled-inputs.ts:19-48 | no file differs exactly when the sorted lists are equal, and then both sides froze the same files |
| ControlledInputs.FileDifferenceNames | src/benchmark/comparison-controlled-inputs.ts:28-48 | a file difference names the first file, in sorted order, the two sides do not share |
| ControlledInputs.SameFilesShowNone | src/benchmark/comparison-controlled-inputs.ts:19-48 | the same files, in whatever order they were frozen, show no difference |
| ControlledInputs.SameSessionCase | src/benchmark/comparison-controlled-inputs.ts:50-82 | two session cases show no difference exactly when both were parsed and are equal |
| ControlledInputs.NoDifferenceMeans | src/benchmark/comparison-controlled-inputs.ts:124-227 | two arms show no difference exactly when setup, settings and frozen files are the same and their judges agree |
| ControlledInputs.JudgeCheckSymmetric | src/benchmark/comparison-judge-contract.ts:19-48 | swapping two stage or pipeline arms keeps the verdict exactly when the modes are equal, the final judge contracts are one known contract or the stage judge contracts are not |
| ControlledInputs.SessionContractMeans | src/benchmark/comparison-session-judge-contract.ts:8-30 | a session arm reports a judge contract exactly when its attempts recorded one for every judge call and no two different ones, and reports the one they recorded |
| Comparability.DifferenceOf | src/benchmark/comparison-controlled-inputs.ts:206-227 | the checks taken in order give the controlled input difference |
| Comparability.AssertCaseArms | src/benchmark/comparison-comparability.ts:48-75 | a case passes exactly when each of its arms is accepted against the reference and has the baseline's inputs; what acceptance asks of the record is `ComparisonVerdict.VerdictIsOnTheRecord` |
| Comparability.AssertComparableComparison | src/benchmark/comparison-comparability.ts:98-114 | the gate passes exactly when there are enough cases, each accepted with the executed corpora of the first, and returns the reference's contract |
| ComparisonVerdict.SettingTextsTell | src/benchmark/comparison-controlled-inputs.ts:92-122 | the joined texts of two arms are equal exactly when the arms ran under the same setups and were delivered under the same rules, what an attempt did not record included |
| ComparisonVerdict.DeliveredExactlyWhen | src/benchmark/comparison-arm-contracts.ts:100-111 | an arm is refused as undelivered exactly when an attempt of it recorded no rule or the rule "none" |
| ComparisonVerdict.JudgedMeans | src/benchmark/comparison-judge-contract.ts:50-136 | an arm's judge contract is kept exactly when a session's attempts agree on one, or every judged stage, its first scorecard and, in a pipeline, every judged final name the group's, and nothing else recorded another |
| ComparisonVerdict.VerdictIsOnTheRecord | src/benchmark/comparison-comparability.ts:48-114 | the gate accepts exactly when every arm recorded no case or its own, was delivered, has as many records as reps and kept its judge; all arms share mode, stages, rep count, setups and rules; the arms of a case ran on the same inputs; arms in one role executed one corpus; all were judged alike; and a pipeline comparison has two cases |
| ComparisonVerdict.BuildComparableComparison | src/benchmark/comparison-comparability.ts:192-205 | a comparison is built exactly when every arm's groups merge and the gate accepts the merged arms, and every arm keeps the contract it returns |
| Comparability.HubControlsEveryPair | src/benchmark/comparison-comparability.ts:48-75 | in a stage or pipeline comparison any two arms of an accepted case have no controlled input difference |
| Comparability.HubContractsEveryPair | src/benchmark/comparison-arm-contracts.ts:27-61 | any two arms of any two accepted cases have no contract difference, and arms in one role executed one corpus |
| Comparability.JudgesAgreeThroughHub | src/benchmark/comparison-judge-contract.ts:19-48 | two arms of one mode whose judges each agree with a third arm's agree with each other |
| Comparability.JudgedUnderOneContract | src/benchmark/comparison-judge-contract.ts:50-99 | any two judged stages of any two reps anywhere in an accepted comparison were judged under one contract |
| Comparability.FinalsUnderOneContract | src/benchmark/comparison-judge-contract.ts:70-99 | any two judged final outcomes anywhere in an accepted pipeline comparison carry one contract, in the rep and in its judge's record |
| Comparability.SessionAttemptsShareAContract | src/benchmark/comparison-session-judge-contract.ts:8-41 | two session arms' judges agree exactly when the attempts of both, taken together, recorded a contract for every judge call and no two different ones |
| Comparability.SessionHubJudges | src/benchmark/comparison-session-judge-contract.ts:8-41 | in a session comparison candidate and control agree when the baseline was judged, and otherwise exactly when they do not carry two different contracts |
| Comparability.SessionContractsEveryPair | src/benchmark/comparison-arm-contracts.ts:27-61 | across the cases of a session comparison two arms keep one contract exactly when they do not carry two different judge contracts, and any two do when the reference was judged |
| Comparability.UnjudgedHubHidesADifference | src/benchmark/comparison-comparability.ts:98-114 | a session comparison of groups as their schema demands them, which the gate accepts however names collate, whose candidate and control were judged under two contracts |
| Comparability.JudgeCheckOneWay | src/benchmark/comparison-judge-contract.ts:19-48 | a pipeline arm and a stage arm whose judges agree one way round only, and whose modes the contract check tells apart |
| Comparability.JudgedStagesAreComparable | src/benchmark/comparison-comparability.ts:98-114 | a stage comparison of three judged arms, with groups as their schema demands them and an executed corpus, passes the gate, so what is proved of accepted comparisons is about some |
| ReportArm.MergeArm | src/benchmark/comparison-comparability.ts:148-190 | groups merge exactly when their ids differ and each later one ran the case, kept its judge and agrees with the first |
| ReportArm.GroupsAgree | src/benchmark/comparison-comparability.ts:116-190 | every two groups of a merged stage or pipeline arm agree, though each was compared with the first only |
| ReportArm.SessionGroupsAgreeWhen | src/benchmark/comparison-comparability.ts:116-190 | two groups of a merged session arm agree exactly when they do not carry two different judge contracts |
| ReportArm.AcceptedSessionGroupsAgree | src/benchmark/comparison-comparability.ts:48-190 | once the gate accepts the merged session arm, every two of its groups agree |
| ReportArm.RowNumbers | src/benchmark/comparison-report-arm.ts:139-187 | the report row gives each rep the index of its group and its ordinal from 1, in merged order |
| ReportArm.NumbersAscend | src/benchmark/comparison-report-arm.ts:139-187 | group indices never step back and stay below the number of groups |
| ReportArm.NumbersCover | src/benchmark/comparison-report-refinement.ts:136-159 | the group indices start at 0 and name every group exactly when no group is empty |
| ReportArm.ProducerMeetsValidator | src/benchmark/comparison-report-refinement.ts:95-159 | a merged arm's row raises no issue exactly when the rep count is the report's, rep ids are distinct and no group is empty |
| ReportArm.ValidatorPassesWhen | src/benchmark/comparison-report-refinement.ts:95-159 | the validator passes any row exactly when it has as many reps as the report, no two of one id, numbered from 1 in order, every named group has a rep and none comes after a later group's |
| ReportArm.AcceptedArmPasses | src/benchmark/comparison-report-refinement.ts:95-159 | every arm the gate accepts, merged from non-empty groups with distinct rep ids, passes the report's checks against the comparison's one contract |
| ReportArm.RecordedIdsUnique | src/benchmark/confirmation-group-record-schema.ts:62-80 | reps named by group and ordinal have ids of their own across all groups of an arm |
| ReportArm.RecordedArmPasses | src/benchmark/comparison-report-refinement.ts:95-159 | so every arm the gate accepts, merged from groups as their schema demands them, passes the report's checks |
| CheckpointStorage.SnapshotManifest.constructor | src/benchmark/checkpoint-storage.ts:67-69 | the manifest starts as the record's path-to-hash map |
| CheckpointStorage.SnapshotManifest.Accept | src/benchmark/checkpoint-storage.ts:71-86 | a file is accepted exactly when it is still on the manifest with its hash, and then taken off |
| CheckpointStorage.SnapshotManifest.RequireComplete | src/benchmark/checkpoint-storage.ts:88-95 | the manifest is complete exactly when nothing is left on it |
| CheckpointStorage.AcceptOne | src/benchmark/checkpoint-storage.ts:71-86 | the manifest stays the record without the accepted files exactly when the next file is on it with its hash |
| CheckpointStorage.VerifyWorkflowSnapshot | src/benchmark/checkpoint-storage.ts:98-109 | a snapshot passes exactly when its paths are distinct and its path-to-hash map is the record's |
| CorpusFileChanges.CompareCorpusFiles | src/benchmark/corpus-file-changes.ts:61-93 | the walk that takes files off the right side lists the changes of both sides in order, and refuses exactly a duplicate path on either side |
| CorpusFileChanges.FileChangesMean | src/benchmark/corpus-file-changes.ts:61-93 | the files listed are exactly those two corpora disagree on, each as changed, added or removed |
| CorpusFileChanges.NoChangeMeansOneManifest | src/benchmark/corpus-file-changes.ts:61-93 | no file is listed exactly when the corpora are one path-to-hash map |
| CorpusFileChanges.CausesAreTheFiles | src/benchmark/corpus-file-changes.ts:116-138 | the causes of a hashed corpus are those files, one each |
| CorpusFileChanges.ChangesInOrder | src/benchmark/corpus-file-changes.ts:61-138 | the changed files are listed by path and the causes by their text |
| CheckpointStaleness.JudgeStage | src/benchmark/checkpoint-staleness.ts:134-171 | one stage's causes collected in order give its result, refused exactly when its corpus cannot be compared |
| CheckpointStaleness.KnobCausesSay | src/benchmark/checkpoint-staleness.ts:96-115 | there is one cause for each of model, effort and settings that differs, in that order, each naming what it was and is now |
| CheckpointStaleness.DeriveStaleness | src/benchmark/checkpoint-staleness.ts:173-199 | the walk that carries the first stale stage along gives each stage its result against the first stage before it with causes of its own, and is refused exactly when some stage's corpus cannot be compared |
| CheckpointStaleness.OwnCausesMean | src/benchmark/checkpoint-staleness.ts:54-61 | a stage has causes of its own exactly when a knob or rubric changed, its corpus was refused or its corpus is not the files it read, and is stale by corpus files alone exactly when only the last holds |
| CheckpointStaleness.StaleMeans | src/benchmark/checkpoint-staleness.ts:134-199 | a stage is stale exactly when it or a stage before it has causes of its own |
| CheckpointStaleness.UpstreamNamed | src/benchmark/checkpoint-staleness.ts:134-199 | every stage after the first stale one names it as upstream, before its own causes; no other stage names one |
| CheckpointStaleness.OnlyCorpusFilesMeans | src/benchmark/checkpoint-staleness.ts:54-61 | the field is set exactly when no knob or rubric changed, the corpus was hashed and is not the files the stage read, and the first stale stage before it, if any, is alike; the changed files are then those that differ, each with one cause |
| CheckpointStaleness.OnlyCorpusFilesAgainstItsDocumentation | src/benchmark/checkpoint-staleness.ts:42-48 | the field's documentation, read as a statement about every stage before, implies the field, and follows from it exactly when no stage in between has other causes |
| CheckpointStaleness.ModelChangeHidden | src/benchmark/checkpoint-staleness.ts:173-199 | a chain whose last stage has the field set although a stage before it ran on another model |
| InheritedConfiguration.SameValuesMeans | src/benchmark/comparison-inherited-configuration.ts:78-85 | comparing sizes and one inclusion is comparing the value sets |
| InheritedConfiguration.NotMixedMeans | src/benchmark/comparison-inherited-configuration.ts:131-142 | an arm is not called mixed exactly when its configurations read alike and none is missing beside others |
| InheritedConfiguration.NoPairDifferenceMeans | src/benchmark/comparison-inherited-configuration.ts:145-180 | two unmixed arms show no difference exactly when they read alike together |
| InheritedFindings.MixedMeans | src/benchmark/comparison-inherited-configuration.ts:131-142 | an arm is called mixed exactly when two of its records read a name differently or one says nothing beside others, and the finding lists exactly those names, sorted, and whether one says nothing |
| InheritedFindings.PairMeans | src/benchmark/comparison-inherited-configuration.ts:145-180 | between two arms a name is listed as one arm's exactly when only that arm's records hold it, and by itself exactly when both hold it and a record of one reads it as none of the other does |
| InheritedFindings.UnrecordedMeans | src/benchmark/comparison-inherited-configuration.ts:195-203 | the arms listed as unrecorded are those none of whose records says what was inherited |
| InheritedFindings.FindingsListed | src/benchmark/comparison-inherited-configuration.ts:187-207 | the findings are of the unrecorded arms, of each mixed arm and of the three contrasts |
| JsonText.ListTells | src/benchmark/comparison-inherited-configuration.ts:109-115 | the JSON text of a list of names with digests, quoted and escaped, is the text of no other list |
| InheritedConfiguration.CanonicalTells | src/benchmark/comparison-inherited-configuration.ts:109-115 | two configurations with one canonical key have one name-to-digest map, however names collate |
| InheritedConfiguration.DistinctRepresents | src/benchmark/comparison-inherited-configuration.ts:117-129 | one configuration is kept for each recorded name-to-digest map, and none invented |
| InheritedConfiguration.NoFindingsMeans | src/benchmark/comparison-inherited-configuration.ts:187-207 | nothing is found exactly when every arm has a record, every record recorded its configuration, and all of them read alike |
| InheritedConfiguration.NoFindingsMeansOneConfiguration | src/benchmark/comparison-inherited-configuration.ts:51-207 | with digests of the schema's form, nothing is found exactly when every arm has a record, every record recorded its configuration, and all of them are one name-to-digest map |
| InheritedConfiguration.AlikeMeansSameDigests | src/benchmark/comparison-inherited-configuration.ts:51-67 | with non-empty digests, reading alike is having the same name-to-digest map |
| InheritedConfiguration.EmptyDigestReadsAsNone | src/benchmark/comparison-inherited-configuration.ts:58-67 | why the schema's form matters: an empty digest, which it forbids, would read like no digest |
| BaselineCorpus.UnitIsDirectory | src/benchmark/baseline-corpus.ts:30-33 | the paths of a skill's unit are exactly those inside its directory |
| BaselineCorpus.SkillDirectoryMeans | src/benchmark/baseline-corpus.ts:16-42 | a path's skill directory is the `skills/` folder, a name without slashes that is not empty and a slash, exactly when the path begins so |
| BaselineCorpus.DifferingUnitsListed | src/benchmark/baseline-corpus.ts:44-53 | a unit is listed, once and in order, exactly when some path of it differs between the arms |
| BaselineCorpus.DifferingUnitsSymmetric | src/benchmark/baseline-corpus.ts:44-53 | which units differ does not depend on which arm comes first |
| BaselineCorpus.DerivedExactlyWhen | src/benchmark/baseline-corpus.ts:55-92 | a baseline is derived exactly when the arms differ and every path they differ in lies in one skill's directory, which is then the skill under test |
| BaselineCorpus.RefusalSays | src/benchmark/baseline-corpus.ts:59-81 | a refusal says whether the arms differ nowhere, in paths of two units or in one path outside every skill's directory, and lists exactly the units they differ in |
| BaselineCorpus.BaselineIsBothArmsWithoutTheSkill | src/benchmark/baseline-corpus.ts:55-92 | a derived baseline is arm A outside the skill under test and equally arm B outside it; the arms differ inside it, and arm A runs as it is exactly when it holds nothing there |
| BaselineCorpus.SwappedArmsAgree | src/benchmark/baseline-corpus.ts:55-92 | swapping the arms keeps the skill, the files and the refusals |

## Left out

- File, Git, process and network effects: only the data they pass in is modelled; the exclude file is a character sequence.
- Transcript parsing, session history, request pricing and the Skill calls of a transcript: their results are parameters (`AgentRequestCost.Readers`, rows of `Transcripts`); `session-history.ts` and the rate catalog are not part of this model.
- Wording: reasons keep the parts that tell them apart, while bases and most error texts are shortened or dropped.
- `forkedSkillOf`, the skill names listed beside a shared cost and the `basis` texts of costs: they label results and enter no sum.
- Floating point: costs and estimates are exact reals, so the rounding that the sorted summation guards against does not show.
- `TextDecoder`: the stream starts at decoded chunks, and what the decoder holds back at the end has no newline.
- The optional line listener: lines are recorded in the order they would be delivered.
- Projecting and loading an arm (`projectArm`, rep files): the result is the premise `ReportArm.Loaded`.
- The other report checks (qualities, outcomes, grades) and the Zod schemas: they read one row field by field.
- `readCorpusFiles`, `isAbsolute` and `basename`: the corpus files a record read and the name shown for a settings file are inputs.
- `localeCompare`: a parameter with the premises named above.
- Lone surrogates in text: text is a sequence of Unicode scalar values, so the JSON escapes of lone surrogates do not occur.
- Timeouts, signals and promise scheduling: nothing here depends on the event loop.
- Calibration findings, quality policy, loading performance, routers and screens: easier by comparison.
- ExcludeProtocol.ExcludeFile.ExcludeWorkflowState: is one run alone; runs that interleave are the transition system of `RunSafe`, in which a short write does not occur, as it is a failed run.
- AgentForest.TotalCoversBelow: compares reasons as sets; the order in which reasons are listed is fixed by `AgentDescendants.Total` only.
- AgentLoops.SkillsInALoop: compares cost, priced and request counts; the reasons of a looping agent's total name its loop and those of its skills name its children's.
- ReturnedAllocation.ReturnedRowsAddUp: compares costs and request lines; counts and reasons, which a complete reading does not show, are compared in `ReturnedAllocation.ReturnedPartsRead`.
- ReturnedAllocation.ReturnedModelsAddUp: compares costs; counts and reasons are compared in `ReturnedAllocation.ReturnedModelsRead`.
