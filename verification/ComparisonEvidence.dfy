/** What a comparison reads of its arms: groups, their inputs, their reps and the files they froze. */
module ComparisonEvidence {
  import opened Wrappers

  datatype Mode = StageMode | PipelineMode | SessionMode

  datatype Role = Baseline | Candidate | Control

  datatype FrozenFile = FrozenFile(kind: string, path: string, sha256: string)

  /** A group's recorded inputs. `lineage` is its serialized form. */
  datatype GroupInputs = GroupInputs(
    setup: Option<string>,
    deliveryRule: Option<string>,
    lineage: Option<string>,
    model: Option<string>,
    effort: Option<string>,
    judgeModel: Option<string>,
    judgeEffort: Option<string>,
    sessionBudgetUsd: Option<real>,
    pipelinePath: Option<string>,
    judgeContractSha256: Option<string>,
    finalJudgeContractSha256: Option<string>)

  datatype GroupRecord = GroupRecord(
    groupId: string,
    mode: Mode,
    declaredStages: seq<string>,
    reps: nat,
    repRecordCount: nat,
    inputs: GroupInputs)

  datatype SessionJudge = SessionJudge(providerCalls: nat, contract: Option<string>)

  datatype SessionAttempt = SessionAttempt(setupKind: Option<string>, deliveryRule: Option<string>, judge: Option<SessionJudge>)

  datatype RepStage = RepStage(stage: string, judged: bool, contract: Option<string>)

  datatype Scorecard = Scorecard(stage: string, contract: Option<string>)

  datatype FinalOutcome = FinalOutcome(judged: bool, contract: Option<string>)

  datatype Rep = Rep(
    repId: string,
    groupId: string,
    attempt: Option<SessionAttempt>,
    stages: seq<RepStage>,
    scorecards: seq<Scorecard>,
    final: FinalOutcome,
    finalJudgeContract: Option<string>)

  /** The declared fields a session case is compared by, each in its serialized form. */
  datatype SessionCase = SessionCase(
    id: string, title: string, prompt: string, fixture: string, transcript: string, tools: string, settings: string,
    agents: string, projectFiles: string, checks: string, stateCheck: string, judge: string, model: string,
    sessionBudgetUsd: string)

  datatype Arm = Arm(
    role: Role,
    declaredCaseId: Option<string>,
    group: GroupRecord,
    groups: seq<GroupRecord>,
    reps: seq<Rep>,
    executedCorpus: seq<FrozenFile>,
    controlledFiles: seq<FrozenFile>,
    sessionCase: Option<SessionCase>)

  datatype Arms = Arms(baseline: Arm, candidate: Arm, control: Arm) {
    function Of(role: Role): Arm {
      match role
      case Baseline => baseline
      case Candidate => candidate
      case Control => control
    }
  }

  datatype CaseEvidence = CaseEvidence(caseId: string, arms: Arms)

  const ROLES: seq<Role> := [Baseline, Candidate, Control]

  /** How names collate: whether the first sorts no later than the second. */
  type Collation = (string, string) -> bool

  /** Names collate in a total order. */
  ghost predicate IsTotalOrder(collation: Collation) {
    && (forall x, y :: collation(x, y) || collation(y, x))
    && (forall x, y :: collation(x, y) && collation(y, x) ==> x == y)
    && (forall x, y, z :: collation(x, y) && collation(y, z) ==> collation(x, z))
  }

  const DIGITS := "0123456789"

  function Decimal(n: nat): string {
    if n < 10 then [DIGITS[n]] else Decimal(n / 10) + [DIGITS[n % 10]]
  }

  /** A rep's id: its group's, and its place in the group from 1. */
  function RepName(groupId: string, ordinal: nat): string {
    (groupId + "-rep") + "-" + Decimal(ordinal)
  }

  const MINIMUM_REPS := 2

  /** What the group record's schema demands of a group's reps. */
  ghost predicate AsRecorded(arm: Arm) {
    && arm.group.reps >= MINIMUM_REPS
    && forall i :: 0 <= i < |arm.reps| ==> arm.reps[i].repId == RepName(arm.group.groupId, i + 1)
  }
}
