/** The gate: which comparisons of arms are comparable at all, decided against one reference arm. */
module Comparability {
  import opened Wrappers
  import opened Collections
  import opened Ordering
  import opened ComparisonEvidence
  import opened ControlledInputs

  datatype Contract = Contract(mode: Mode, declaredStages: seq<string>, reps: nat)

  function ArmReps(groups: seq<GroupRecord>): nat {
    if groups == [] then 0 else groups[0].reps + ArmReps(groups[1..])
  }

  function ContractDifference(referenceArm: Arm, arm: Arm): Difference {
    if referenceArm.group.mode != arm.group.mode then Ok(Some("mode"))
    else if referenceArm.group.declaredStages != arm.group.declaredStages then Ok(Some("declaredStages"))
    else if ArmReps(referenceArm.groups) != ArmReps(arm.groups) then Ok(Some("reps"))
    else if SetupKinds(referenceArm) != SetupKinds(arm) then Ok(Some("setup"))
    else if DeliveryRules(referenceArm) != DeliveryRules(arm) then Ok(Some("corpusDelivery"))
    else JudgeContractDifference(referenceArm, arm)
  }

  predicate RanTheCase(caseId: string, arm: Arm) {
    arm.declaredCaseId.None? || arm.declaredCaseId.value == caseId
  }

  function SplitAtCommas(text: string): (parts: seq<string>)
    ensures parts != []
  {
    if text == "" then [""]
    else
      var before := SplitAtCommas(text[..|text| - 1]);
      var c := text[|text| - 1];
      if c == ',' then before + [""] else before[..|before| - 1] + [before[|before| - 1] + [c]]
  }

  predicate WasDelivered(arm: Arm) {
    "none" !in SplitAtCommas(DeliveryRules(arm))
  }

  predicate ExpectedRepCount(arm: Arm) {
    forall group :: group in arm.groups ==> group.repRecordCount == group.reps
  }

  function ScorecardContract(scorecards: seq<Scorecard>, stage: string): Option<string> {
    if scorecards == [] then None
    else if scorecards[0].stage == stage then scorecards[0].contract
    else ScorecardContract(scorecards[1..], stage)
  }

  predicate StageJudgedUnder(rep: Rep, stage: RepStage, contract: string) {
    if stage.judged then
      stage.contract == Some(contract) && ScorecardContract(rep.scorecards, stage.stage) == Some(contract)
    else stage.contract.None? || stage.contract == Some(contract)
  }

  predicate FinalJudgedUnder(arm: Arm, rep: Rep) {
    arm.group.mode == PipelineMode ==>
      var expected := arm.group.inputs.finalJudgeContractSha256;
      && (rep.final.contract.Some? ==> rep.final.contract == expected)
      && (rep.final.judged ==> rep.final.contract == expected && rep.finalJudgeContract == expected)
  }

  predicate RepJudgedUnder(arm: Arm, rep: Rep, contract: string) {
    (forall stage :: stage in rep.stages ==> StageJudgedUnder(rep, stage, contract)) && FinalJudgedUnder(arm, rep)
  }

  predicate JudgeContractKept(arm: Arm) {
    if arm.group.mode == SessionMode then SessionJudgeContract(arm).Ok?
    else
      && arm.group.inputs.judgeContractSha256.Some?
      && forall rep :: rep in arm.reps ==> RepJudgedUnder(arm, rep, arm.group.inputs.judgeContractSha256.value)
  }

  predicate ArmAccepted(caseId: string, arm: Arm, referenceArm: Arm) {
    && ContractDifference(referenceArm, arm) == SAME
    && RanTheCase(caseId, arm) && WasDelivered(arm) && ExpectedRepCount(arm) && JudgeContractKept(arm)
  }

  ghost predicate CaseAccepted(c: CaseEvidence, referenceArm: Arm, collation: Collation) {
    && (forall role :: role in ROLES ==> ArmAccepted(c.caseId, c.arms.Of(role), referenceArm))
    && ControlledInputDifference(c.arms.baseline, c.arms.candidate, collation) == SAME
    && ControlledInputDifference(c.arms.baseline, c.arms.control, collation) == SAME
  }

  predicate SameCorpus(a: Arm, b: Arm, collation: Collation) {
    SortedFiles(a.executedCorpus, collation) == SortedFiles(b.executedCorpus, collation)
  }

  predicate EnoughCases(cases: seq<CaseEvidence>) {
    cases != [] && (|cases| < 2 ==> cases[0].arms.baseline.group.mode != PipelineMode)
  }

  /** What the gate asks, every comparison against the first case's baseline or the case's own. */
  ghost predicate Comparable(cases: seq<CaseEvidence>, collation: Collation) {
    && EnoughCases(cases)
    && (forall c :: c in cases ==> CaseAccepted(c, cases[0].arms.baseline, collation))
    && (forall c, role :: c in cases && role in ROLES ==> SameCorpus(cases[0].arms.Of(role), c.arms.Of(role), collation))
  }

  method DifferenceOf(reference: Arm, other: Arm, collation: Collation) returns (difference: Difference)
    ensures difference == ControlledInputDifference(reference, other, collation)
  {
    var session := reference.group.mode == SessionMode;
    if session != (other.group.mode == SessionMode) {
      return Ok(Some("mode"));
    }
    var setup := SetupDifference(reference, other);
    if setup.Some? {
      return Ok(setup);
    }
    var inputs: Option<string>;
    if session {
      inputs := SessionCaseDifference(reference.sessionCase, other.sessionCase);
      if inputs.None? {
        inputs := CompareControlledFiles(
          NonCaseFiles(reference.controlledFiles), NonCaseFiles(other.controlledFiles), collation);
      }
      if inputs.None? {
        var l, r := reference.group.inputs, other.group.inputs;
        inputs := FirstDifference([
          ("inputs.model", l.model != r.model),
          ("inputs.effort", l.effort != r.effort),
          ("inputs.sessionBudgetUsd", l.sessionBudgetUsd != r.sessionBudgetUsd)]);
      }
    } else {
      inputs := CompareControlledFiles(reference.controlledFiles, other.controlledFiles, collation);
      if inputs.None? {
        inputs := FirstDifference(StageFields(reference.group.inputs, other.group.inputs));
      }
    }
    difference := if inputs.Some? then Ok(inputs) else JudgeContractDifference(reference, other);
  }

  method AssertCaseArms(c: CaseEvidence, referenceArm: Arm, collation: Collation) returns (ok: bool)
    ensures ok <==> CaseAccepted(c, referenceArm, collation)
  {
    hide ArmAccepted, ControlledInputDifference;
    for i := 0 to |ROLES|
      invariant forall j :: 0 <= j < i ==> ArmAccepted(c.caseId, c.arms.Of(ROLES[j]), referenceArm)
    {
      if !ArmAccepted(c.caseId, c.arms.Of(ROLES[i]), referenceArm) {
        assert ROLES[i] in ROLES;
        return false;
      }
    }
    var candidate := DifferenceOf(c.arms.baseline, c.arms.candidate, collation);
    if candidate != SAME {
      return false;
    }
    var control := DifferenceOf(c.arms.baseline, c.arms.control, collation);
    ok := control == SAME;
  }

  /** The gate itself. A refusal is an error; acceptance gives the contract every arm keeps. */
  method AssertComparableComparison(cases: seq<CaseEvidence>, collation: Collation) returns (r: Result<Contract>)
    ensures r.Ok? <==> Comparable(cases, collation)
    ensures r.Ok? ==>
      var reference := cases[0].arms.baseline;
      r.value == Contract(reference.group.mode, reference.group.declaredStages, ArmReps(reference.groups))
  {
    hide CaseAccepted, SameCorpus, ArmReps;
    if !EnoughCases(cases) {
      return Err("too few cases");
    }
    var reference := cases[0].arms.baseline;
    for i := 0 to |cases|
      invariant forall j :: 0 <= j < i ==> CaseAccepted(cases[j], reference, collation)
    {
      var ok := AssertCaseArms(cases[i], reference, collation);
      if !ok {
        assert cases[i] in cases;
        return Err("arms are not comparable");
      }
    }
    for k := 0 to |ROLES|
      invariant forall c, j :: c in cases && 0 <= j < k ==>
        SameCorpus(cases[0].arms.Of(ROLES[j]), c.arms.Of(ROLES[j]), collation)
    {
      for i := 0 to |cases|
        invariant forall j :: 0 <= j < i ==>
          SameCorpus(cases[0].arms.Of(ROLES[k]), cases[j].arms.Of(ROLES[k]), collation)
      {
        if !SameCorpus(cases[0].arms.Of(ROLES[k]), cases[i].arms.Of(ROLES[k]), collation) {
          assert cases[i] in cases && ROLES[k] in ROLES;
          return Err("field inputs.files.corpus differs");
        }
      }
    }
    r := Ok(Contract(reference.group.mode, reference.group.declaredStages, ArmReps(reference.groups)));
  }

  lemma EveryRole(role: Role)
    ensures role in ROLES
  {
    assert ROLES[0] == Baseline && ROLES[1] == Candidate && ROLES[2] == Control;
  }

  lemma HubFacts(cases: seq<CaseEvidence>, collation: Collation, c: CaseEvidence, role: Role)
    requires Comparable(cases, collation) && c in cases
    ensures ContractDifference(cases[0].arms.baseline, c.arms.Of(role)) == SAME
    ensures JudgeContractKept(c.arms.Of(role))
    ensures c.arms.Of(role).group.mode == cases[0].arms.baseline.group.mode
    ensures role != Baseline ==> ControlledInputDifference(c.arms.baseline, c.arms.Of(role), collation) == SAME
    ensures cases[0] in cases && SameCorpus(cases[0].arms.Of(role), c.arms.Of(role), collation)
  {
    EveryRole(role);
    assert ArmAccepted(c.caseId, c.arms.Of(role), cases[0].arms.baseline);
  }

  lemma JudgesAgreeThroughHub(hub: Arm, a: Arm, b: Arm)
    requires hub.group.mode == a.group.mode == b.group.mode != SessionMode
    requires JudgeContractDifference(hub, a) == SAME && JudgeContractDifference(hub, b) == SAME
    ensures JudgeContractDifference(a, b) == SAME
  {
  }

  /**
   * In stage and pipeline comparisons the hub comparisons suffice: the gate compares arms with
   * one reference only, yet any two arms of a case ran on the same controlled inputs.
   */
  lemma HubControlsEveryPair(cases: seq<CaseEvidence>, collation: Collation, c: CaseEvidence, left: Role, right: Role)
    requires Comparable(cases, collation) && c in cases
    requires cases[0].arms.baseline.group.mode != SessionMode
    ensures ControlledInputDifference(c.arms.Of(left), c.arms.Of(right), collation) == SAME
  {
    hide ControlledInputDifference, JudgeContractDifference;
    var hub, a, b := c.arms.baseline, c.arms.Of(left), c.arms.Of(right);
    HubJudges(cases, collation, c, left);
    HubJudges(cases, collation, c, right);
    HubInputs(cases, collation, c, left);
    HubInputs(cases, collation, c, right);
    JudgesAgreeThroughHub(cases[0].arms.baseline, a, b);
    NoDifferenceMeans(a, b, collation);
  }

  lemma HubJudges(cases: seq<CaseEvidence>, collation: Collation, c: CaseEvidence, role: Role)
    requires Comparable(cases, collation) && c in cases
    ensures JudgeContractDifference(cases[0].arms.baseline, c.arms.Of(role)) == SAME
    ensures c.arms.Of(role).group.mode == cases[0].arms.baseline.group.mode
  {
    HubFacts(cases, collation, c, role);
  }

  lemma HubInputs(cases: seq<CaseEvidence>, collation: Collation, c: CaseEvidence, role: Role)
    requires Comparable(cases, collation) && c in cases
    ensures SameInputs(c.arms.baseline, c.arms.Of(role), collation)
  {
    HubFacts(cases, collation, c, role);
    HubFacts(cases, collation, c, Candidate);
    NoDifferenceMeans(c.arms.baseline, c.arms.Of(role), collation);
    NoDifferenceMeans(c.arms.baseline, c.arms.candidate, collation);
  }

  /** Any two arms of any two cases keep one contract, and the arms in one role executed one corpus. */
  lemma HubContractsEveryPair(
    cases: seq<CaseEvidence>, collation: Collation, c: CaseEvidence, d: CaseEvidence, left: Role, right: Role)
    requires Comparable(cases, collation) && c in cases && d in cases
    requires cases[0].arms.baseline.group.mode != SessionMode
    ensures ContractDifference(c.arms.Of(left), d.arms.Of(right)) == SAME
    ensures SameCorpus(c.arms.Of(left), d.arms.Of(left), collation)
  {
    HubFacts(cases, collation, c, left);
    HubFacts(cases, collation, d, left);
    HubFacts(cases, collation, d, right);
    JudgesAgreeThroughHub(cases[0].arms.baseline, c.arms.Of(left), d.arms.Of(right));
  }

  /** So every judged stage of every rep of every arm was judged under one contract. */
  lemma JudgedUnderOneContract(
    cases: seq<CaseEvidence>, collation: Collation, c: CaseEvidence, d: CaseEvidence, left: Role, right: Role,
    rep: Rep, other: Rep, stage: RepStage, otherStage: RepStage)
    requires Comparable(cases, collation) && c in cases && d in cases
    requires cases[0].arms.baseline.group.mode != SessionMode
    requires rep in c.arms.Of(left).reps && other in d.arms.Of(right).reps
    requires stage in rep.stages && otherStage in other.stages && stage.judged && otherStage.judged
    ensures stage.contract.Some? && stage.contract == otherStage.contract
    ensures ScorecardContract(rep.scorecards, stage.stage) == ScorecardContract(other.scorecards, otherStage.stage)
  {
    HubContractsEveryPair(cases, collation, c, d, left, right);
    HubFacts(cases, collation, c, left);
    HubFacts(cases, collation, d, right);
    var a, b := c.arms.Of(left), d.arms.Of(right);
    assert RepJudgedUnder(a, rep, a.group.inputs.judgeContractSha256.value);
    assert RepJudgedUnder(b, other, b.group.inputs.judgeContractSha256.value);
    assert StageJudgedUnder(rep, stage, a.group.inputs.judgeContractSha256.value);
    assert StageJudgedUnder(other, otherStage, b.group.inputs.judgeContractSha256.value);
    JudgesAgreeWhen(a, b);
  }

  /** And so was every judged final outcome of a pipeline comparison, by its rep and by its own judge record. */
  lemma FinalsUnderOneContract(
    cases: seq<CaseEvidence>, collation: Collation, c: CaseEvidence, d: CaseEvidence, left: Role, right: Role,
    rep: Rep, other: Rep)
    requires Comparable(cases, collation) && c in cases && d in cases
    requires cases[0].arms.baseline.group.mode == PipelineMode
    requires rep in c.arms.Of(left).reps && other in d.arms.Of(right).reps && rep.final.judged && other.final.judged
    ensures rep.final.contract.Some?
    ensures rep.final.contract == rep.finalJudgeContract == other.final.contract == other.finalJudgeContract
  {
    HubContractsEveryPair(cases, collation, c, d, left, right);
    HubFacts(cases, collation, c, left);
    HubFacts(cases, collation, d, right);
    var a, b := c.arms.Of(left), d.arms.Of(right);
    assert RepJudgedUnder(a, rep, a.group.inputs.judgeContractSha256.value);
    assert RepJudgedUnder(b, other, b.group.inputs.judgeContractSha256.value);
    SameContractApartFromJudges(cases[0].arms.baseline, a, b);
    JudgesAgreeWhen(a, b);
    hide Comparable, ContractDifference, JudgeContractDifference, StageJudgedUnder;
  }

  /** The contract a session arm was judged under, if it was judged. */
  ghost function JudgeOf(arm: Arm): Option<string> {
    if SessionJudgeContract(arm).Ok? then SessionJudgeContract(arm).value else None
  }

  /**
   * In session comparisons an unjudged arm matches any judge. Where the case's baseline was
   * judged the hub comparisons still suffice; where it was not, two other arms of the case pass
   * exactly when they do not carry two different contracts.
   */
  lemma SessionHubJudges(cases: seq<CaseEvidence>, collation: Collation, c: CaseEvidence)
    requires Comparable(cases, collation) && c in cases
    requires cases[0].arms.baseline.group.mode == SessionMode
    ensures forall role :: SessionJudgeContract(c.arms.Of(role)).Ok?
    ensures var hub := JudgeOf(c.arms.baseline);
      var left, right := JudgeOf(c.arms.candidate), JudgeOf(c.arms.control);
      && (ControlledInputDifference(c.arms.candidate, c.arms.control, collation) == SAME <==>
            hub.Some? || left.None? || right.None? || left == right)
      && (hub.Some? ==> ControlledInputDifference(c.arms.candidate, c.arms.control, collation) == SAME)
  {
    hide SessionJudgeContract, ControlledInputDifference, SameInputs, Comparable, JudgeOf;
    SessionArm(cases, collation, c, Baseline);
    SessionArm(cases, collation, c, Candidate);
    SessionArm(cases, collation, c, Control);
    forall role ensures SessionJudgeContract(c.arms.Of(role)).Ok? {
      SessionArm(cases, collation, c, role);
    }
    SessionTriple(c.arms.Of(Baseline), c.arms.Of(Candidate), c.arms.Of(Control), collation);
  }

  lemma SessionTriple(hub: Arm, a: Arm, b: Arm, collation: Collation)
    requires hub.group.mode == a.group.mode == b.group.mode == SessionMode
    requires SessionJudgeContract(hub).Ok? && SessionJudgeContract(a).Ok? && SessionJudgeContract(b).Ok?
    requires SameInputs(hub, a, collation) && SameInputs(hub, b, collation)
    requires ControlledInputDifference(hub, a, collation) == SAME && ControlledInputDifference(hub, b, collation) == SAME
    ensures var judge := JudgeOf(hub);
      var left, right := JudgeOf(a), JudgeOf(b);
      && (ControlledInputDifference(a, b, collation) == SAME <==> judge.Some? || left.None? || right.None? || left == right)
      && (judge.Some? ==> ControlledInputDifference(a, b, collation) == SAME)
  {
    SameInputsThroughHub(hub, a, b, collation);
    hide *;
    SessionPair(hub, a, collation);
    SessionPair(hub, b, collation);
    SessionPair(a, b, collation);
  }

  lemma SessionArm(cases: seq<CaseEvidence>, collation: Collation, c: CaseEvidence, role: Role)
    requires Comparable(cases, collation) && c in cases
    requires cases[0].arms.baseline.group.mode == SessionMode
    ensures c.arms.Of(role).group.mode == SessionMode
    ensures SessionJudgeContract(c.arms.Of(role)).Ok?
    ensures SameInputs(c.arms.baseline, c.arms.Of(role), collation)
    ensures role != Baseline ==> ControlledInputDifference(c.arms.baseline, c.arms.Of(role), collation) == SAME
  {
    HubFacts(cases, collation, c, role);
    HubInputs(cases, collation, c, role);
  }

  lemma SameInputsThroughHub(hub: Arm, a: Arm, b: Arm, collation: Collation)
    requires SameInputs(hub, a, collation) && SameInputs(hub, b, collation)
    ensures SameInputs(a, b, collation)
  {
  }

  lemma SessionPair(a: Arm, b: Arm, collation: Collation)
    requires a.group.mode == b.group.mode == SessionMode && SameInputs(a, b, collation)
    requires SessionJudgeContract(a).Ok? && SessionJudgeContract(b).Ok?
    ensures var left, right := JudgeOf(a), JudgeOf(b);
      ControlledInputDifference(a, b, collation) == SAME <==> left.None? || right.None? || left == right
  {
    hide SessionJudgeContract, ControlledInputDifference, SameInputs;
    NoDifferenceMeans(a, b, collation);
  }

  /** Two session arms' judges agree unless they carry two different contracts. */
  lemma SessionJudgesAgreeWhen(a: Arm, b: Arm)
    requires a.group.mode == SessionMode && SessionJudgeContract(a).Ok? && SessionJudgeContract(b).Ok?
    ensures JudgeContractDifference(a, b) == SAME <==>
      JudgeOf(a).None? || JudgeOf(b).None? || JudgeOf(a) == JudgeOf(b)
  {
    hide SessionJudgeContract;
  }

  /**
   * Two session arms' judges agree exactly when their attempts, taken together, recorded every
   * contract a judge was called under and no two different ones.
   */
  lemma SessionAttemptsShareAContract(a: Arm, b: Arm)
    requires a.group.mode == SessionMode || b.group.mode == SessionMode
    ensures JudgeContractDifference(a, b) == SAME <==> AllKnown(a.reps + b.reps) && OneContract(a.reps + b.reps)
  {
    SessionContractMeans(a);
    SessionContractMeans(b);
    KnownTogether(a.reps, b.reps);
    if SessionJudgeContract(a).Ok? && SessionJudgeContract(b).Ok? {
      OneTogether(a.reps, b.reps, SessionJudgeContract(a).value, SessionJudgeContract(b).value);
    }
    OneApart(a.reps, b.reps);
    hide SessionJudgeContract, AllKnown, OneContract;
  }

  lemma KnownTogether(a: seq<Rep>, b: seq<Rep>)
    ensures AllKnown(a + b) <==> AllKnown(a) && AllKnown(b)
  {
    hide JudgeIn, Unknown;
    assert forall rep :: rep in a + b <==> rep in a || rep in b;
  }

  lemma OneApart(a: seq<Rep>, b: seq<Rep>)
    ensures OneContract(a + b) ==> OneContract(a) && OneContract(b)
  {
    hide ContractIn;
    assert forall rep :: rep in a + b <==> rep in a || rep in b;
  }

  lemma OneTogether(a: seq<Rep>, b: seq<Rep>, left: Option<string>, right: Option<string>)
    requires OneContract(a) && OneContract(b)
    requires forall contract :: left == Some(contract) <==> exists rep :: rep in a && ContractIn(rep) == Some(contract)
    requires forall contract :: right == Some(contract) <==> exists rep :: rep in b && ContractIn(rep) == Some(contract)
    ensures OneContract(a + b) <==> left.None? || right.None? || left == right
  {
    hide ContractIn;
    assert forall rep :: rep in a + b <==> rep in a || rep in b;
    forall rep | rep in a && ContractIn(rep).Some? ensures ContractIn(rep) == left {
      assert ContractIn(rep) == Some(ContractIn(rep).value);
    }
    forall rep | rep in b && ContractIn(rep).Some? ensures ContractIn(rep) == right {
      assert ContractIn(rep) == Some(ContractIn(rep).value);
    }
    if left.Some? && right.Some? && OneContract(a + b) {
      assert left == Some(left.value) && right == Some(right.value);
      var x :| x in a && ContractIn(x) == Some(left.value);
      var y :| y in b && ContractIn(y) == Some(right.value);
      assert x in a + b && y in a + b;
    }
  }

  lemma SameContractApartFromJudges(hub: Arm, a: Arm, b: Arm)
    requires ContractDifference(hub, a) == SAME && ContractDifference(hub, b) == SAME
    ensures ContractDifference(a, b) == JudgeContractDifference(a, b)
    ensures a.group.mode == b.group.mode == hub.group.mode
    ensures JudgeContractDifference(hub, a) == SAME
  {
    hide JudgeContractDifference, SetupKinds, DeliveryRules, ArmReps;
  }

  /**
   * Across the cases of a session comparison two arms keep one contract exactly when they do not
   * carry two different judge contracts; where the first case's baseline was judged, any two do.
   */
  lemma SessionContractsEveryPair(
    cases: seq<CaseEvidence>, collation: Collation, c: CaseEvidence, d: CaseEvidence, left: Role, right: Role)
    requires Comparable(cases, collation) && c in cases && d in cases
    requires cases[0].arms.baseline.group.mode == SessionMode
    ensures var a, b := JudgeOf(c.arms.Of(left)), JudgeOf(d.arms.Of(right));
      && (ContractDifference(c.arms.Of(left), d.arms.Of(right)) == SAME <==> a.None? || b.None? || a == b)
      && (JudgeOf(cases[0].arms.baseline).Some? ==> ContractDifference(c.arms.Of(left), d.arms.Of(right)) == SAME)
  {
    hide SessionJudgeContract, ContractDifference, Comparable, JudgeContractDifference, JudgeOf;
    var hub, a, b := cases[0].arms.baseline, c.arms.Of(left), d.arms.Of(right);
    HubFacts(cases, collation, c, left);
    HubFacts(cases, collation, d, right);
    SessionArm(cases, collation, c, left);
    SessionArm(cases, collation, d, right);
    SessionArm(cases, collation, cases[0], Baseline);
    SameContractApartFromJudges(hub, a, b);
    SameContractApartFromJudges(hub, b, a);
    SessionJudgesAgreeWhen(hub, a);
    SessionJudgesAgreeWhen(hub, b);
    SessionJudgesAgreeWhen(a, b);
  }

  // ---- a session comparison the gate accepts though two of its arms differ

  function Digest(c: char): string {
    seq(64, i requires 0 <= i < 64 => c)
  }

  function GroupName(role: Role): string {
    match role
    case Baseline => "baseline"
    case Candidate => "candidate"
    case Control => "control"
  }

  const NO_INPUTS := GroupInputs(None, None, None, None, None, None, None, None, None, None, None)

  const SESSION_CASE := SessionCase(
    "case", "Case", "Reply", "none", "none", "none", "none", "none", "none", "[]", "none", "rubric", "m", "1")

  function SessionRep(role: Role, ordinal: nat, judge: Option<SessionJudge>): Rep {
    Rep(RepName(GroupName(role), ordinal), GroupName(role), Some(SessionAttempt(None, Some("1"), judge)),
        [RepStage("checks", false, None)], [], FinalOutcome(false, None), None)
  }

  /** A group of two attempts, of which only the first may have reached its judge. */
  function SessionArmOf(role: Role, judge: Option<SessionJudge>): Arm {
    var inputs := NO_INPUTS.(model := Some("m"), sessionBudgetUsd := Some(1.0));
    var group := GroupRecord(GroupName(role), SessionMode, ["checks"], 2, 2, inputs);
    Arm(role, Some("case"), group, [group], [SessionRep(role, 1, judge), SessionRep(role, 2, None)],
        [], [FrozenFile("case", "case.json", Digest('0'))], Some(SESSION_CASE))
  }

  const JUDGE_A := SessionJudge(1, Some(Digest('a')))

  const JUDGE_B := SessionJudge(1, Some(Digest('b')))

  function JudgeFor(role: Role): Option<SessionJudge> {
    match role
    case Baseline => None
    case Candidate => Some(JUDGE_A)
    case Control => Some(JUDGE_B)
  }

  /** The baseline is unjudged; the candidate and the control were judged under two contracts. */
  function UnjudgedHub(): seq<CaseEvidence> {
    [CaseEvidence("case", Arms(
      SessionArmOf(Baseline, JudgeFor(Baseline)),
      SessionArmOf(Candidate, JudgeFor(Candidate)),
      SessionArmOf(Control, JudgeFor(Control))))]
  }

  lemma SessionArmRecorded(role: Role, judge: Option<SessionJudge>)
    ensures AsRecorded(SessionArmOf(role, judge))
  {
    hide RepName, Digest;
    assert SessionArmOf(role, judge).reps[0].repId == RepName(GroupName(role), 1);
    assert SessionArmOf(role, judge).reps[1].repId == RepName(GroupName(role), 2);
  }

  lemma SameOption(x: Option<string>, y: Option<string>)
    requires forall v :: x == Some(v) <==> y == Some(v)
    ensures x == y
  {
    if x.Some? {
      assert x == Some(x.value);
    }
    if y.Some? {
      assert y == Some(y.value);
    }
  }

  lemma OneJudgedOfTwo(x: Rep, y: Rep, judge: Option<SessionJudge>)
    requires JudgeIn(x) == judge && JudgeIn(y) == None && (judge.Some? ==> judge.value.contract.Some?)
    ensures AllKnown([x, y]) && OneContract([x, y])
    ensures forall v :: (exists rep :: rep in [x, y] && ContractIn(rep) == Some(v)) <==> judge.Some? && judge.value.contract == Some(v)
  {
    assert x in [x, y];
    assert forall rep :: rep in [x, y] <==> rep == x || rep == y;
  }

  lemma SessionArmJudge(role: Role, judge: Option<SessionJudge>)
    requires judge.Some? ==> judge.value.contract.Some?
    ensures SessionJudgeContract(SessionArmOf(role, judge)) == Ok(if judge.Some? then judge.value.contract else None)
  {
    var arm := SessionArmOf(role, judge);
    var contract := if judge.Some? then judge.value.contract else None;
    OneJudgedOfTwo(SessionRep(role, 1, judge), SessionRep(role, 2, None), judge);
    assert arm.reps == [SessionRep(role, 1, judge), SessionRep(role, 2, None)];
    hide *;
    SessionContractMeans(arm);
    SameOption(SessionJudgeContract(arm).value, contract);
  }

  lemma SessionArmKinds(role: Role, judge: Option<SessionJudge>)
    ensures SetupKinds(SessionArmOf(role, judge)) == KindsJoined(["isolated"] + ["isolated"])
    ensures DeliveryRules(SessionArmOf(role, judge)) == KindsJoined(["1"] + ["1"])
  {
    var reps := SessionArmOf(role, judge).reps;
    hide RepName, Digest, KindsJoined;
    assert Map(reps, SetupOf) == ["isolated"] + ["isolated"];
    assert Map(reps, DeliveryOf) == ["1"] + ["1"];
  }

  lemma OneKind(kind: string)
    ensures KindsJoined([kind]) == kind
    ensures KindsJoined([kind] + [kind]) == kind
  {
    assert [kind][..0] == [];
    assert Distinct([kind]) == [kind];
    DistinctSnoc([kind], kind);
    assert [kind][1..] == [];
    assert SortStrings([kind]) == Insert(kind, SortStrings([]));
  }

  lemma RuleOneIsDelivered()
    ensures "none" !in SplitAtCommas("1")
  {
    assert "1"[..0] == "";
    assert SplitAtCommas("1") == [""][..0] + ["" + ['1']];
  }

  lemma SessionArmKindsRead(role: Role, judge: Option<SessionJudge>)
    ensures SetupKinds(SessionArmOf(role, judge)) == "isolated" && DeliveryRules(SessionArmOf(role, judge)) == "1"
  {
    SessionArmKinds(role, judge);
    OneKind("isolated");
    OneKind("1");
  }

  lemma SessionArmAccepted(role: Role, judge: Option<SessionJudge>, collation: Collation)
    requires judge.Some? ==> judge.value.contract.Some?
    ensures ArmAccepted("case", SessionArmOf(role, judge), SessionArmOf(Baseline, None))
    ensures SameInputs(SessionArmOf(Baseline, None), SessionArmOf(role, judge), collation)
  {
    SessionArmJudge(role, judge);
    SessionArmJudge(Baseline, None);
    SessionArmKindsRead(role, judge);
    SessionArmKindsRead(Baseline, None);
    RuleOneIsDelivered();
    SessionArmFacts(role, judge);
    SessionArmFacts(Baseline, None);
    hide SessionJudgeContract, SetupKinds, DeliveryRules, SplitAtCommas, SortedFiles, RepJudgedUnder, RepName, Digest, ArmReps;
  }

  lemma SessionArmFacts(role: Role, judge: Option<SessionJudge>)
    ensures ArmReps(SessionArmOf(role, judge).groups) == 2 && ExpectedRepCount(SessionArmOf(role, judge))
  {
    hide RepName, Digest;
    assert SessionArmOf(role, judge).groups[1..] == [];
  }

  /** One case alone is accepted where each of its arms is, and the others differ from the baseline in nothing. */
  lemma OneCaseComparable(c: CaseEvidence, collation: Collation)
    requires c.arms.baseline.group.mode != PipelineMode
    requires forall role :: ArmAccepted(c.caseId, c.arms.Of(role), c.arms.baseline)
    requires ControlledInputDifference(c.arms.baseline, c.arms.candidate, collation) == SAME
    requires ControlledInputDifference(c.arms.baseline, c.arms.control, collation) == SAME
    ensures Comparable([c], collation)
  {
    assert forall role :: SameCorpus(c.arms.Of(role), c.arms.Of(role), collation);
    hide ArmAccepted, ControlledInputDifference, SameCorpus;
    assert CaseAccepted(c, c.arms.baseline, collation);
  }

  lemma UnjudgedHubArms(collation: Collation)
    ensures var c := UnjudgedHub()[0];
      && (forall role :: ArmAccepted("case", c.arms.Of(role), c.arms.baseline) && AsRecorded(c.arms.Of(role)))
      && (forall role :: SameInputs(c.arms.baseline, c.arms.Of(role), collation))
  {
    var c := UnjudgedHub()[0];
    hide ArmAccepted, SameInputs, AsRecorded, SessionArmOf, JudgeFor;
    forall role: Role ensures c.arms.Of(role) == SessionArmOf(role, JudgeFor(role)) {
    }
    forall role: Role
      ensures ArmAccepted("case", c.arms.Of(role), c.arms.baseline) && AsRecorded(c.arms.Of(role))
      ensures SameInputs(c.arms.baseline, c.arms.Of(role), collation)
    {
      HubArm(role, collation);
    }
  }

  lemma HubArm(role: Role, collation: Collation)
    ensures var arm, baseline := SessionArmOf(role, JudgeFor(role)), SessionArmOf(Baseline, JudgeFor(Baseline));
      ArmAccepted("case", arm, baseline) && AsRecorded(arm) && SameInputs(baseline, arm, collation)
  {
    hide ArmAccepted, SameInputs, AsRecorded, SessionArmOf;
    SessionArmAccepted(role, JudgeFor(role), collation);
    SessionArmRecorded(role, JudgeFor(role));
  }

  lemma DigestTells(c: char, d: char)
    requires c != d
    ensures Digest(c) != Digest(d)
  {
    assert Digest(c)[0] != Digest(d)[0];
  }

  lemma UnjudgedHubJudges()
    ensures var c := UnjudgedHub()[0];
      && SessionJudgeContract(c.arms.baseline) == Ok(None)
      && SessionJudgeContract(c.arms.candidate) == Ok(JUDGE_A.contract)
      && SessionJudgeContract(c.arms.control) == Ok(JUDGE_B.contract)
    ensures JUDGE_A.contract != JUDGE_B.contract
  {
    DigestTells('a', 'b');
    hide SessionJudgeContract, Digest, SessionArmOf;
    SessionArmJudge(Baseline, None);
    SessionArmJudge(Candidate, Some(JUDGE_A));
    SessionArmJudge(Control, Some(JUDGE_B));
  }

  /**
   * The gate accepts it, however names collate, and yet its candidate and control arms differ in
   * their judge. Its groups are as the record's schema demands them.
   */
  lemma UnjudgedHubHidesADifference(collation: Collation)
    ensures Comparable(UnjudgedHub(), collation)
    ensures forall role :: AsRecorded(UnjudgedHub()[0].arms.Of(role))
    ensures ControlledInputDifference(UnjudgedHub()[0].arms.candidate, UnjudgedHub()[0].arms.control, collation)
         == Ok(Some("inputs.judgeContractSha256"))
  {
    var c := UnjudgedHub()[0];
    assert UnjudgedHub() == [c] && c.caseId == "case";
    assert forall role :: c.arms.Of(role).group.mode == SessionMode;
    UnjudgedHubArms(collation);
    UnjudgedHubJudges();
    hide UnjudgedHub, ArmAccepted, SameInputs, AsRecorded, SessionJudgeContract, ControlledInputDifference, Comparable;
    UnjudgedHubAccepted(c, collation);
  }

  lemma UnjudgedHubAccepted(c: CaseEvidence, collation: Collation)
    requires forall role :: ArmAccepted(c.caseId, c.arms.Of(role), c.arms.baseline)
    requires forall role :: c.arms.Of(role).group.mode == SessionMode
    requires forall role :: SameInputs(c.arms.baseline, c.arms.Of(role), collation)
    requires SessionJudgeContract(c.arms.baseline) == Ok(None)
    requires SessionJudgeContract(c.arms.candidate) == Ok(JUDGE_A.contract)
    requires SessionJudgeContract(c.arms.control) == Ok(JUDGE_B.contract)
    requires JUDGE_A.contract != JUDGE_B.contract
    ensures Comparable([c], collation)
    ensures ControlledInputDifference(c.arms.candidate, c.arms.control, collation) == Ok(Some("inputs.judgeContractSha256"))
  {
    var hub, a, b := c.arms.Of(Baseline), c.arms.Of(Candidate), c.arms.Of(Control);
    SetupThenInputs(hub, a, collation);
    SetupThenInputs(hub, b, collation);
    SameInputsThroughHub(hub, a, b, collation);
    SetupThenInputs(a, b, collation);
    hide ArmAccepted, SameInputs, ControlledInputDifference, SessionJudgeContract, Comparable;
    OneCaseComparable(c, collation);
  }

  lemma SetupThenInputs(a: Arm, b: Arm, collation: Collation)
    requires SameInputs(a, b, collation)
    ensures ControlledInputDifference(a, b, collation) == JudgeContractDifference(a, b)
  {
    hide JudgeContractDifference, SetupKinds, DeliveryRules, SortedFiles, FirstDifference;
    if a.group.mode == SessionMode {
      SameSessionCase(a.sessionCase, b.sessionCase);
      NoFileDiffers(NonCaseFiles(a.controlledFiles), NonCaseFiles(b.controlledFiles), collation);
      SessionFieldsSame(a.group.inputs, b.group.inputs);
    } else {
      NoFileDiffers(a.controlledFiles, b.controlledFiles, collation);
      StageFieldsSame(a.group.inputs, b.group.inputs);
    }
  }

  // ---- a stage comparison the gate accepts

  function StageRep(role: Role, ordinal: nat): Rep {
    Rep(RepName(GroupName(role), ordinal), GroupName(role), None,
        [RepStage("plan", true, Some(Digest('a')))], [Scorecard("plan", Some(Digest('a')))], FinalOutcome(false, None), None)
  }

  function JudgedStageArm(role: Role): Arm {
    var inputs := NO_INPUTS.(
      deliveryRule := Some("1"), lineage := Some("lineage"), model := Some("m"), judgeModel := Some("j"),
      sessionBudgetUsd := Some(1.0), pipelinePath := Some("pipeline.yml"), judgeContractSha256 := Some(Digest('a')));
    var group := GroupRecord(GroupName(role), StageMode, ["plan"], 2, 2, inputs);
    Arm(role, Some("case"), group, [group], [StageRep(role, 1), StageRep(role, 2)],
        [FrozenFile("corpus", "AGENTS.md", Digest('c'))], [FrozenFile("task", "task.md", Digest('d'))], None)
  }

  lemma JudgedStageArmRecorded(role: Role)
    ensures AsRecorded(JudgedStageArm(role))
  {
    hide RepName, Digest;
    assert JudgedStageArm(role).reps[0].repId == RepName(GroupName(role), 1);
    assert JudgedStageArm(role).reps[1].repId == RepName(GroupName(role), 2);
  }

  lemma JudgedStageArmKept(role: Role)
    ensures JudgeContractKept(JudgedStageArm(role)) && WasDelivered(JudgedStageArm(role))
    ensures ExpectedRepCount(JudgedStageArm(role)) && ArmReps(JudgedStageArm(role).groups) == 2
  {
    var arm := JudgedStageArm(role);
    RuleOneIsDelivered();
    assert WasDelivered(arm);
    assert arm.groups[1..] == [];
    hide Digest, RepName, SplitAtCommas;
    forall rep | rep in arm.reps ensures RepJudgedUnder(arm, rep, Digest('a')) {
      assert rep.stages == [RepStage("plan", true, Some(Digest('a')))];
    }
  }

  lemma JudgedStageArmAccepted(role: Role, collation: Collation)
    ensures ArmAccepted("case", JudgedStageArm(role), JudgedStageArm(Baseline))
    ensures ControlledInputDifference(JudgedStageArm(Baseline), JudgedStageArm(role), collation) == SAME
  {
    JudgedStageArmKept(role);
    JudgedStageArmKept(Baseline);
    hide JudgeContractKept, WasDelivered, ExpectedRepCount, ArmReps, SortedFiles, Digest, RepName, ControlledInputDifference;
    NoDifferenceMeans(JudgedStageArm(Baseline), JudgedStageArm(role), collation);
  }

  /** Three arms judged under one contract are accepted, so the theorems above are about something. */
  lemma JudgedStagesAreComparable(collation: Collation)
    ensures var arms := Arms(JudgedStageArm(Baseline), JudgedStageArm(Candidate), JudgedStageArm(Control));
      Comparable([CaseEvidence("case", arms)], collation) && forall role :: AsRecorded(arms.Of(role))
  {
    var arms := Arms(JudgedStageArm(Baseline), JudgedStageArm(Candidate), JudgedStageArm(Control));
    assert arms.baseline.group.mode == StageMode;
    hide JudgedStageArm, ArmAccepted, AsRecorded, ControlledInputDifference, Comparable;
    forall role: Role ensures arms.Of(role) == JudgedStageArm(role) {
    }
    forall role: Role ensures ArmAccepted("case", arms.Of(role), arms.baseline) && AsRecorded(arms.Of(role)) {
      JudgedStageArmAccepted(role, collation);
      JudgedStageArmRecorded(role);
    }
    JudgedStageArmAccepted(Candidate, collation);
    JudgedStageArmAccepted(Control, collation);
    OneCaseComparable(CaseEvidence("case", arms), collation);
  }

  // ---- a pair of arms the judge check accepts one way round only

  /** A pipeline arm without a final judge against a stage arm: the gate never asks, as it compares modes first. */
  lemma JudgeCheckOneWay()
    ensures var stage := JudgedStageArm(Baseline);
      var pipeline := stage.(group := stage.group.(mode := PipelineMode));
      && JudgeContractDifference(pipeline, stage) == Ok(Some("inputs.finalJudgeContractSha256"))
      && JudgeContractDifference(stage, pipeline) == SAME
      && ContractDifference(stage, pipeline) == Ok(Some("mode"))
  {
  }
}
