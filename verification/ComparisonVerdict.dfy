/** The gate's verdict, read off what the arms of a comparison record. */
module ComparisonVerdict {
  import opened Wrappers
  import opened Collections
  import opened Ordering
  import opened ComparisonEvidence
  import opened ControlledInputs
  import opened Comparability
  import opened ReportArm

  // ---- setups and delivery rules

  /** An attempt of the arm ran under this setup; one that recorded none ran isolated, and a stage group in its project. */
  ghost predicate RanUnder(arm: Arm, kind: string) {
    if arm.group.mode != SessionMode then
      arm.group.inputs.setup == Some(kind) || (arm.group.inputs.setup.None? && kind == "project")
    else
      exists rep :: rep in arm.reps
        && if rep.attempt.Some? && rep.attempt.value.setupKind.Some? then rep.attempt.value.setupKind.value == kind
           else kind == "isolated"
  }

  /** An attempt of the arm had its corpus delivered under this rule; "none" is that of an attempt that recorded none. */
  ghost predicate DeliveredUnder(arm: Arm, rule: string) {
    if arm.group.mode != SessionMode then
      arm.group.inputs.deliveryRule == Some(rule) || (arm.group.inputs.deliveryRule.None? && rule == "none")
    else
      exists rep :: rep in arm.reps
        && if rep.attempt.Some? && rep.attempt.value.deliveryRule.Some? then rep.attempt.value.deliveryRule.value == rule
           else rule == "none"
  }

  /** A name that can be listed with commas: the schemas give setups and rules no other. */
  predicate Plain(name: string) {
    name != "" && ',' !in name
  }

  ghost predicate PlainArm(arm: Arm) {
    && (forall kind :: RanUnder(arm, kind) ==> Plain(kind))
    && forall rule :: DeliveredUnder(arm, rule) ==> Plain(rule)
  }

  lemma {:induction false} SplitOne(name: string)
    requires ',' !in name
    ensures SplitAtCommas(name) == [name]
  {
    if name != "" {
      var n := |name| - 1;
      SplitOne(name[..n]);
      assert name == name[..n] + [name[n]];
    }
  }

  /** One character more: a part of its own after a comma, or the last part one longer. */
  ghost function Extended(parts: seq<string>, c: char): seq<string>
    requires parts != []
  {
    if c == ',' then parts + [""] else parts[..|parts| - 1] + [parts[|parts| - 1] + [c]]
  }

  lemma SplitSnoc(text: string, c: char)
    ensures SplitAtCommas(text + [c]) == Extended(SplitAtCommas(text), c)
  {
    assert (text + [c])[..|text|] == text;
  }

  lemma ExtendedConcat(a: seq<string>, b: seq<string>, c: char)
    requires b != []
    ensures Extended(a + b, c) == a + Extended(b, c)
  {
    if c == ',' {
      assert a + b + [""] == a + (b + [""]);
    } else {
      var last := [b[|b| - 1] + [c]];
      assert (a + b)[..|a + b| - 1] == a + b[..|b| - 1];
      assert a + b[..|b| - 1] + last == a + (b[..|b| - 1] + last);
    }
  }

  lemma SplitStep(start: string, a: string, b: string, c: char)
    requires SplitAtCommas(start + b) == SplitAtCommas(a) + SplitAtCommas(b)
    ensures SplitAtCommas((start + b) + [c]) == SplitAtCommas(a) + SplitAtCommas(b + [c])
  {
    SplitSnoc(start + b, c);
    SplitSnoc(b, c);
    ExtendedConcat(SplitAtCommas(a), SplitAtCommas(b), c);
    hide SplitAtCommas, Extended;
  }

  lemma {:induction false} SplitConcat(a: string, b: string)
    ensures SplitAtCommas(a + [','] + b) == SplitAtCommas(a) + SplitAtCommas(b)
  {
    var start := a + [','];
    if b == "" {
      SplitSnoc(a, ',');
      assert start + b == start;
    } else {
      var n := |b| - 1;
      hide SplitAtCommas;
      SplitConcat(a, b[..n]);
      SplitStep(start, a, b[..n], b[n]);
      assert b[..n] + [b[n]] == b;
      assert start + b == (start + b[..n]) + [b[n]];
    }
  }

  /** Splitting at commas undoes joining with them. */
  lemma {:induction false} SplitOfJoined(names: seq<string>)
    requires names != [] && forall name :: name in names ==> ',' !in name
    ensures SplitAtCommas(JoinWithCommas(names)) == names
  {
    assert names[0] in names;
    SplitOne(names[0]);
    if |names| == 1 {
      assert names == [names[0]];
    } else {
      SplitOfJoined(names[1..]);
      SplitConcat(names[0], JoinWithCommas(names[1..]));
      assert "," == [','];
      assert names == [names[0]] + names[1..];
    }
  }

  ghost predicate ListsPlain(kinds: seq<string>) {
    forall kind :: kind in kinds ==> Plain(kind)
  }

  lemma SortedKinds(kinds: seq<string>)
    ensures var sorted := SortStrings(Distinct(kinds));
      Elements(sorted) == Elements(kinds) && Ascending(sorted) && NoRepeats(sorted)
  {
    DistinctElements(kinds);
    SortKeeps(Distinct(kinds));
  }

  /** The joined text lists each kind once and no other. */
  lemma JoinedLists(kinds: seq<string>)
    requires kinds != [] && ListsPlain(kinds)
    ensures Elements(SplitAtCommas(KindsJoined(kinds))) == Elements(kinds)
  {
    var sorted := SortStrings(Distinct(kinds));
    SortedKinds(kinds);
    assert kinds[0] in Elements(sorted);
    forall name | name in sorted ensures ',' !in name {
      assert name in Elements(kinds);
    }
    SplitOfJoined(sorted);
  }

  lemma NoneJoined()
    ensures KindsJoined([]) == "" && SplitAtCommas("") == [""]
  {
  }

  /** Two texts of joined kinds are one text exactly when they list the same kinds. */
  lemma JoinedTells(a: seq<string>, b: seq<string>)
    requires ListsPlain(a) && ListsPlain(b)
    ensures KindsJoined(a) == KindsJoined(b) <==> Elements(a) == Elements(b)
  {
    NoneJoined();
    SortedKinds(a);
    SortedKinds(b);
    if a != [] {
      JoinedLists(a);
      assert a[0] in Elements(a) && a[0] in a;
    }
    if b != [] {
      JoinedLists(b);
      assert b[0] in Elements(b) && b[0] in b;
    }
    assert Elements([""]) == {""};
    if Elements(a) == Elements(b) {
      SortedListUnique(SortStrings(Distinct(a)), SortStrings(Distinct(b)));
    }
    hide SplitAtCommas, SortStrings, Distinct;
  }

  ghost function SetupsOf(arm: Arm): seq<string> {
    if arm.group.mode != SessionMode then [SetupKinds(arm)] else Map(arm.reps, SetupOf)
  }

  ghost function RulesOf(arm: Arm): seq<string> {
    if arm.group.mode != SessionMode then [DeliveryRules(arm)] else Map(arm.reps, DeliveryOf)
  }

  lemma SetupsListed(arm: Arm)
    ensures SetupKinds(arm) == KindsJoined(SetupsOf(arm))
    ensures forall kind :: kind in SetupsOf(arm) <==> RanUnder(arm, kind)
  {
    OneKind(SetupKinds(arm));
    hide KindsJoined;
    if arm.group.mode == SessionMode {
      var kinds := Map(arm.reps, SetupOf);
      forall kind ensures kind in kinds <==> RanUnder(arm, kind) {
        if kind in kinds {
          var i :| 0 <= i < |kinds| && kinds[i] == kind;
          assert arm.reps[i] in arm.reps;
        }
        if RanUnder(arm, kind) {
          var rep :| rep in arm.reps && SetupOf(rep) == kind;
          var i :| 0 <= i < |arm.reps| && arm.reps[i] == rep;
          assert kinds[i] == kind;
        }
      }
    }
  }

  lemma RulesListed(arm: Arm)
    ensures DeliveryRules(arm) == KindsJoined(RulesOf(arm))
    ensures forall rule :: rule in RulesOf(arm) <==> DeliveredUnder(arm, rule)
  {
    OneKind(DeliveryRules(arm));
    hide KindsJoined;
    if arm.group.mode == SessionMode {
      var rules := Map(arm.reps, DeliveryOf);
      forall rule ensures rule in rules <==> DeliveredUnder(arm, rule) {
        if rule in rules {
          var i :| 0 <= i < |rules| && rules[i] == rule;
          assert arm.reps[i] in arm.reps;
        }
        if DeliveredUnder(arm, rule) {
          var rep :| rep in arm.reps && DeliveryOf(rep) == rule;
          var i :| 0 <= i < |arm.reps| && arm.reps[i] == rep;
          assert rules[i] == rule;
        }
      }
    }
  }

  /** Both arms ran under the same setups, and were delivered under the same rules. */
  ghost predicate SameSetting(a: Arm, b: Arm) {
    && (forall kind :: RanUnder(a, kind) <==> RanUnder(b, kind))
    && forall rule :: DeliveredUnder(a, rule) <==> DeliveredUnder(b, rule)
  }

  lemma SameElements(a: seq<string>, b: seq<string>)
    ensures Elements(a) == Elements(b) <==> forall x :: x in a <==> x in b
  {
    assert forall x :: x in a <==> x in Elements(a);
    assert forall x :: x in b <==> x in Elements(b);
  }

  /** The texts the gate compares are equal exactly when the arms ran under the same setups and rules. */
  lemma SettingTextsTell(a: Arm, b: Arm)
    requires PlainArm(a) && PlainArm(b)
    ensures SetupKinds(a) == SetupKinds(b) && DeliveryRules(a) == DeliveryRules(b) <==> SameSetting(a, b)
  {
    SetupsListed(a);
    SetupsListed(b);
    RulesListed(a);
    RulesListed(b);
    hide KindsJoined, SetupKinds, DeliveryRules, SetupsOf, RulesOf, RanUnder, DeliveredUnder, Plain;
    JoinedTells(SetupsOf(a), SetupsOf(b));
    JoinedTells(RulesOf(a), RulesOf(b));
    SameElements(SetupsOf(a), SetupsOf(b));
    SameElements(RulesOf(a), RulesOf(b));
  }

  /** An arm was delivered exactly when none of its attempts was delivered under no rule. */
  lemma DeliveredExactlyWhen(arm: Arm)
    requires PlainArm(arm)
    ensures WasDelivered(arm) <==> !DeliveredUnder(arm, "none")
  {
    RulesListed(arm);
    NoneJoined();
    var rules := RulesOf(arm);
    hide KindsJoined, DeliveryRules, RulesOf, RanUnder, DeliveredUnder, Plain;
    if rules != [] {
      JoinedLists(rules);
      var parts := SplitAtCommas(KindsJoined(rules));
      assert "none" in parts <==> "none" in Elements(parts);
      assert "none" in rules <==> "none" in Elements(rules);
    }
  }

  // ---- what every arm records of itself

  /** The scorecard a stage is looked up in: the first that names it. */
  ghost predicate ScoredUnder(scorecards: seq<Scorecard>, stage: string, contract: string) {
    exists k :: 0 <= k < |scorecards| && scorecards[k].stage == stage && scorecards[k].contract == Some(contract)
      && forall j :: 0 <= j < k ==> scorecards[j].stage != stage
  }

  lemma {:induction false} ScoredMeans(scorecards: seq<Scorecard>, stage: string, contract: string)
    ensures ScorecardContract(scorecards, stage) == Some(contract) <==> ScoredUnder(scorecards, stage, contract)
  {
    if scorecards != [] {
      var rest := scorecards[1..];
      ScoredMeans(rest, stage, contract);
      if ScoredUnder(rest, stage, contract) && scorecards[0].stage != stage {
        var k :| 0 <= k < |rest| && rest[k].stage == stage && rest[k].contract == Some(contract)
          && forall j :: 0 <= j < k ==> rest[j].stage != stage;
        assert scorecards[k + 1] == rest[k];
        assert forall j :: 0 < j < k + 1 ==> scorecards[j] == rest[j - 1];
      }
      if ScoredUnder(scorecards, stage, contract) && scorecards[0].stage != stage {
        var k :| 0 <= k < |scorecards| && scorecards[k].stage == stage && scorecards[k].contract == Some(contract)
          && forall j :: 0 <= j < k ==> scorecards[j].stage != stage;
        assert rest[k - 1] == scorecards[k];
        assert forall j :: 0 <= j < k - 1 ==> rest[j] == scorecards[j + 1];
      }
    }
  }

  /** Every stage of the rep was judged under the contract, and recorded no other where it was not judged. */
  ghost predicate StagesUnder(rep: Rep, contract: string) {
    forall stage :: stage in rep.stages ==>
      && (stage.contract.Some? ==> stage.contract.value == contract)
      && (stage.judged ==> stage.contract.Some? && ScoredUnder(rep.scorecards, stage.stage, contract))
  }

  /** The rep's final outcome was judged under what the group names, or recorded nothing else. */
  ghost predicate FinalUnder(rep: Rep, contract: Option<string>) {
    && (rep.final.contract.Some? ==> rep.final.contract == contract)
    && (rep.final.judged ==> rep.final.contract == contract && rep.finalJudgeContract == contract)
  }

  /** The arm was judged in one way: a session's attempts under one contract, a stage or pipeline group's reps under its own. */
  ghost predicate JudgedAsRecorded(arm: Arm) {
    if arm.group.mode == SessionMode then AllKnown(arm.reps) && OneContract(arm.reps)
    else
      && arm.group.inputs.judgeContractSha256.Some?
      && forall rep :: rep in arm.reps ==>
           && StagesUnder(rep, arm.group.inputs.judgeContractSha256.value)
           && (arm.group.mode == PipelineMode ==> FinalUnder(rep, arm.group.inputs.finalJudgeContractSha256))
  }

  lemma RepJudgedMeans(arm: Arm, rep: Rep, contract: string)
    ensures RepJudgedUnder(arm, rep, contract) <==>
      && StagesUnder(rep, contract)
      && (arm.group.mode == PipelineMode ==> FinalUnder(rep, arm.group.inputs.finalJudgeContractSha256))
  {
    hide ScoredUnder;
    forall stage | stage in rep.stages
      ensures StageJudgedUnder(rep, stage, contract) <==>
        && (stage.contract.Some? ==> stage.contract.value == contract)
        && (stage.judged ==> stage.contract.Some? && ScoredUnder(rep.scorecards, stage.stage, contract))
    {
      ScoredMeans(rep.scorecards, stage.stage, contract);
    }
    hide StageJudgedUnder;
  }

  lemma JudgedMeans(arm: Arm)
    ensures JudgeContractKept(arm) <==> JudgedAsRecorded(arm)
  {
    if arm.group.mode == SessionMode {
      SessionContractMeans(arm);
    } else if arm.group.inputs.judgeContractSha256.Some? {
      forall rep | rep in arm.reps {
        RepJudgedMeans(arm, rep, arm.group.inputs.judgeContractSha256.value);
      }
      hide RepJudgedUnder, StagesUnder, FinalUnder;
    }
    hide SessionJudgeContract, AllKnown, OneContract;
  }

  /** The arm ran this case, or recorded none; its corpus was delivered; every rep was recorded; and it was judged in one way. */
  ghost predicate ArmSound(caseId: string, arm: Arm) {
    && (arm.declaredCaseId.Some? ==> arm.declaredCaseId.value == caseId)
    && !DeliveredUnder(arm, "none")
    && (forall k :: 0 <= k < |arm.groups| ==> arm.groups[k].repRecordCount == arm.groups[k].reps)
    && JudgedAsRecorded(arm)
  }

  lemma ArmSoundMeans(caseId: string, arm: Arm)
    requires PlainArm(arm)
    ensures RanTheCase(caseId, arm) && WasDelivered(arm) && ExpectedRepCount(arm) && JudgeContractKept(arm) <==>
      ArmSound(caseId, arm)
  {
    DeliveredExactlyWhen(arm);
    JudgedMeans(arm);
    hide WasDelivered, JudgeContractKept, DeliveredUnder, JudgedAsRecorded;
    assert ExpectedRepCount(arm) <==> forall k :: 0 <= k < |arm.groups| ==> arm.groups[k].repRecordCount == arm.groups[k].reps;
  }

  // ---- what two arms record alike

  /** The reps the groups set out to record, together. */
  lemma {:induction false} ArmRepsAdd(a: seq<GroupRecord>, b: seq<GroupRecord>)
    ensures ArmReps(a + b) == ArmReps(a) + ArmReps(b)
    ensures |a| == 1 ==> ArmReps(a) == a[0].reps
  {
    if a == [] {
      assert a + b == b;
    } else {
      assert (a + b)[1..] == a[1..] + b;
      ArmRepsAdd(a[1..], b);
    }
  }

  /** Two arms of one design: the same mode, stages, number of reps, setups and delivery rules. */
  ghost predicate SameDesign(a: Arm, b: Arm) {
    && a.group.mode == b.group.mode && a.group.declaredStages == b.group.declaredStages
    && ArmReps(a.groups) == ArmReps(b.groups) && SameSetting(a, b)
  }

  /** Two stage or pipeline arms name one judge contract for their stages, and pipeline arms one for their final outcomes. */
  ghost predicate SameJudges(a: Arm, b: Arm) {
    OneStageJudge(a, b) && (a.group.mode == PipelineMode ==> OneFinalJudge(a, b))
  }

  /** The attempts of two session arms, taken together, were judged under one contract. */
  ghost predicate JudgedTogether(a: Arm, b: Arm) {
    AllKnown(a.reps + b.reps) && OneContract(a.reps + b.reps)
  }

  ghost predicate JudgesMatch(a: Arm, b: Arm) {
    if a.group.mode == SessionMode then JudgedTogether(a, b) else SameJudges(a, b)
  }

  lemma JudgesMatchMeans(a: Arm, b: Arm)
    requires a.group.mode == b.group.mode
    ensures JudgeContractDifference(a, b) == SAME <==> JudgesMatch(a, b)
  {
    if a.group.mode == SessionMode {
      SessionAttemptsShareAContract(a, b);
    } else {
      JudgesAgreeWhen(a, b);
    }
    hide JudgeContractDifference, AllKnown, OneContract;
  }

  lemma ContractMeans(reference: Arm, arm: Arm)
    requires PlainArm(reference) && PlainArm(arm)
    ensures ContractDifference(reference, arm) == SAME <==> SameDesign(reference, arm) && JudgesMatch(reference, arm)
  {
    SettingTextsTell(reference, arm);
    if reference.group.mode == arm.group.mode {
      JudgesMatchMeans(reference, arm);
    }
    hide SetupKinds, DeliveryRules, JudgeContractDifference, JudgesMatch, SameSetting, ArmReps, PlainArm;
  }

  /** Two arms ran on the same inputs: the same model, effort and budget, and the same frozen files or session case. */
  ghost predicate RanOnTheSame(a: Arm, b: Arm, collation: Collation) {
    && a.group.inputs.model == b.group.inputs.model && a.group.inputs.effort == b.group.inputs.effort
    && a.group.inputs.sessionBudgetUsd == b.group.inputs.sessionBudgetUsd
    && if a.group.mode == SessionMode then
         && a.sessionCase.Some? && a.sessionCase == b.sessionCase
         && SortedFiles(NonCaseFiles(a.controlledFiles), collation) == SortedFiles(NonCaseFiles(b.controlledFiles), collation)
       else
         && SortedFiles(a.controlledFiles, collation) == SortedFiles(b.controlledFiles, collation)
         && a.group.inputs.lineage == b.group.inputs.lineage && a.group.inputs.pipelinePath == b.group.inputs.pipelinePath
         && a.group.inputs.judgeModel == b.group.inputs.judgeModel && a.group.inputs.judgeEffort == b.group.inputs.judgeEffort
  }

  lemma InputsMean(a: Arm, b: Arm, collation: Collation)
    requires PlainArm(a) && PlainArm(b) && SameDesign(a, b)
    ensures ControlledInputDifference(a, b, collation) == SAME <==> RanOnTheSame(a, b, collation) && JudgesMatch(a, b)
  {
    SettingTextsTell(a, b);
    JudgesMatchMeans(a, b);
    NoDifferenceMeans(a, b, collation);
    hide SetupKinds, DeliveryRules, JudgeContractDifference, JudgesMatch, SameSetting, ArmReps, PlainArm, ControlledInputDifference;
    hide SortedFiles, NonCaseFiles;
  }

  /** Leaving the session case's file out keeps every other file, as often as it was there. */
  lemma {:induction false} NonCaseFilesKeep(files: seq<FrozenFile>)
    ensures forall file :: multiset(NonCaseFiles(files))[file] == if file.kind == "case" then 0 else multiset(files)[file]
  {
    if files != [] {
      NonCaseFilesKeep(files[1..]);
      assert files == [files[0]] + files[1..];
    }
  }

  // ---- the verdict

  ghost predicate PlainCases(cases: seq<CaseEvidence>) {
    forall c, role :: c in cases ==> PlainArm(c.arms.Of(role))
  }

  ghost predicate ArmsSound(cases: seq<CaseEvidence>) {
    forall c, role :: c in cases ==> ArmSound(c.caseId, c.arms.Of(role))
  }

  ghost predicate OneDesign(cases: seq<CaseEvidence>) {
    forall c, d, left, right :: c in cases && d in cases ==> SameDesign(c.arms.Of(left), d.arms.Of(right))
  }

  ghost predicate SameCaseInputs(cases: seq<CaseEvidence>, collation: Collation) {
    forall c, left, right :: c in cases ==> RanOnTheSame(c.arms.Of(left), c.arms.Of(right), collation)
  }

  ghost predicate OneCorpusByRole(cases: seq<CaseEvidence>, collation: Collation) {
    forall c, d, role :: c in cases && d in cases ==>
      SortedFiles(c.arms.Of(role).executedCorpus, collation) == SortedFiles(d.arms.Of(role).executedCorpus, collation)
  }

  /**
   * Stage and pipeline arms were all judged alike. Session arms were each judged as the first
   * case's baseline was, and those of a case as its baseline was.
   */
  ghost predicate JudgedAlike(cases: seq<CaseEvidence>)
    requires cases != []
  {
    var first := cases[0].arms.baseline;
    if first.group.mode == SessionMode then
      forall c, role :: c in cases ==>
        JudgedTogether(first, c.arms.Of(role)) && (role != Baseline ==> JudgedTogether(c.arms.baseline, c.arms.Of(role)))
    else forall c, d, left, right :: c in cases && d in cases ==> SameJudges(c.arms.Of(left), d.arms.Of(right))
  }

  /** What the recorded evidence of a comparison must be like. */
  ghost predicate ComparableAsRecorded(cases: seq<CaseEvidence>, collation: Collation) {
    && cases != [] && (|cases| == 1 ==> cases[0].arms.baseline.group.mode != PipelineMode)
    && ArmsSound(cases) && OneDesign(cases) && SameCaseInputs(cases, collation)
    && OneCorpusByRole(cases, collation) && JudgedAlike(cases)
  }

  /** What is asked of an arm against the first case's baseline. */
  ghost predicate ArmFits(caseId: string, arm: Arm, first: Arm) {
    ArmSound(caseId, arm) && SameDesign(first, arm) && JudgesMatch(first, arm)
  }

  lemma ArmAcceptedMeans(caseId: string, arm: Arm, first: Arm)
    requires PlainArm(first) && PlainArm(arm)
    ensures ArmAccepted(caseId, arm, first) <==> ArmFits(caseId, arm, first)
  {
    ContractMeans(first, arm);
    ArmSoundMeans(caseId, arm);
    hide ContractDifference, RanTheCase, WasDelivered, ExpectedRepCount, JudgeContractKept, ArmSound, SameDesign, JudgesMatch, PlainArm;
  }

  ghost predicate CaseFits(c: CaseEvidence, first: Arm, collation: Collation) {
    && (forall role :: ArmFits(c.caseId, c.arms.Of(role), first))
    && RanOnTheSame(c.arms.baseline, c.arms.candidate, collation) && JudgesMatch(c.arms.baseline, c.arms.candidate)
    && RanOnTheSame(c.arms.baseline, c.arms.control, collation) && JudgesMatch(c.arms.baseline, c.arms.control)
  }

  lemma DesignThrough(first: Arm, a: Arm, b: Arm)
    requires SameDesign(first, a) && SameDesign(first, b)
    ensures SameDesign(a, b)
  {
    hide RanUnder, DeliveredUnder;
  }

  lemma ArmsFit(c: CaseEvidence, first: Arm)
    requires PlainArm(first) && forall role :: PlainArm(c.arms.Of(role))
    ensures (forall role :: role in ROLES ==> ArmAccepted(c.caseId, c.arms.Of(role), first)) <==>
      forall role :: ArmFits(c.caseId, c.arms.Of(role), first)
  {
    hide ArmAccepted, ArmFits, PlainArm, Arms.Of;
    forall role: Role
      ensures role in ROLES
      ensures ArmAccepted(c.caseId, c.arms.Of(role), first) <==> ArmFits(c.caseId, c.arms.Of(role), first)
    {
      EveryRole(role);
      ArmAcceptedMeans(c.caseId, c.arms.Of(role), first);
    }
  }

  lemma ArmMatchesBaseline(c: CaseEvidence, first: Arm, collation: Collation, role: Role)
    requires PlainArm(c.arms.baseline) && PlainArm(c.arms.Of(role))
    requires SameDesign(first, c.arms.baseline) && SameDesign(first, c.arms.Of(role))
    ensures ControlledInputDifference(c.arms.baseline, c.arms.Of(role), collation) == SAME <==>
      RanOnTheSame(c.arms.baseline, c.arms.Of(role), collation) && JudgesMatch(c.arms.baseline, c.arms.Of(role))
  {
    hide *;
    DesignThrough(first, c.arms.baseline, c.arms.Of(role));
    InputsMean(c.arms.baseline, c.arms.Of(role), collation);
  }

  lemma FitsDesign(c: CaseEvidence, first: Arm, role: Role)
    requires ArmFits(c.caseId, c.arms.Of(role), first)
    ensures SameDesign(first, c.arms.Of(role))
  {
  }

  lemma CaseAcceptedMeans(c: CaseEvidence, first: Arm, collation: Collation)
    requires PlainArm(first) && forall role :: PlainArm(c.arms.Of(role))
    ensures CaseAccepted(c, first, collation) <==> CaseFits(c, first, collation)
  {
    ArmsFit(c, first);
    assert c.arms.Of(Baseline) == c.arms.baseline;
    assert c.arms.Of(Candidate) == c.arms.candidate && c.arms.Of(Control) == c.arms.control;
    hide ArmAccepted, ArmFits, SameDesign, JudgesMatch, RanOnTheSame, ControlledInputDifference, PlainArm, Arms.Of;
    if forall role :: ArmFits(c.caseId, c.arms.Of(role), first) {
      FitsDesign(c, first, Baseline);
      FitsDesign(c, first, Candidate);
      FitsDesign(c, first, Control);
      ArmMatchesBaseline(c, first, collation, Candidate);
      ArmMatchesBaseline(c, first, collation, Control);
    }
  }

  lemma RanThrough(hub: Arm, a: Arm, b: Arm, collation: Collation)
    requires hub.group.mode == a.group.mode
    requires RanOnTheSame(hub, a, collation) && RanOnTheSame(hub, b, collation)
    ensures RanOnTheSame(a, b, collation)
  {
    hide SortedFiles, NonCaseFiles;
  }

  lemma JudgesThrough(first: Arm, a: Arm, b: Arm)
    requires SameJudges(first, a) && SameJudges(first, b) && first.group.mode == a.group.mode
    ensures SameJudges(a, b)
  {
  }

  ghost predicate CasesFit(cases: seq<CaseEvidence>, collation: Collation)
    requires cases != []
  {
    forall c :: c in cases ==> CaseFits(c, cases[0].arms.baseline, collation)
  }

  lemma FitsRole(c: CaseEvidence, first: Arm, collation: Collation, role: Role)
    requires CaseFits(c, first, collation)
    ensures ArmSound(c.caseId, c.arms.Of(role)) && SameDesign(first, c.arms.Of(role)) && JudgesMatch(first, c.arms.Of(role))
    ensures c.arms.Of(role).group.mode == first.group.mode
    ensures RanOnTheSame(c.arms.baseline, c.arms.Of(role), collation)
    ensures role != Baseline ==> JudgesMatch(c.arms.baseline, c.arms.Of(role))
  {
    assert ArmFits(c.caseId, c.arms.Of(role), first) && ArmFits(c.caseId, c.arms.Of(Baseline), first);
    hide ArmSound, JudgesMatch, SortedFiles, NonCaseFiles, SameSetting;
    match role
    case Baseline => assert c.arms.Of(role) == c.arms.baseline;
    case Candidate => assert c.arms.Of(role) == c.arms.candidate;
    case Control => assert c.arms.Of(role) == c.arms.control;
  }

  lemma FitIsRecorded(cases: seq<CaseEvidence>, collation: Collation)
    requires cases != [] && CasesFit(cases, collation)
    ensures ArmsSound(cases) && OneDesign(cases) && SameCaseInputs(cases, collation) && JudgedAlike(cases)
  {
    var first := cases[0].arms.baseline;
    hide ArmSound, SameDesign, RanOnTheSame, JudgedTogether, SameJudges, CaseFits;
    forall c, role | c in cases
      ensures ArmSound(c.caseId, c.arms.Of(role)) && SameDesign(first, c.arms.Of(role)) && JudgesMatch(first, c.arms.Of(role))
      ensures c.arms.Of(role).group.mode == first.group.mode
      ensures RanOnTheSame(c.arms.baseline, c.arms.Of(role), collation)
      ensures role != Baseline ==> JudgesMatch(c.arms.baseline, c.arms.Of(role))
    {
      FitsRole(c, first, collation, role);
    }
    forall c, d, left, right | c in cases && d in cases ensures SameDesign(c.arms.Of(left), d.arms.Of(right)) {
      DesignThrough(first, c.arms.Of(left), d.arms.Of(right));
    }
    forall c, left, right | c in cases ensures RanOnTheSame(c.arms.Of(left), c.arms.Of(right), collation) {
      assert c.arms.Of(Baseline) == c.arms.baseline;
      RanThrough(c.arms.baseline, c.arms.Of(left), c.arms.Of(right), collation);
    }
    if first.group.mode == SessionMode {
      assert forall c :: c in cases ==> c.arms.Of(Baseline) == c.arms.baseline;
    } else {
      forall c, d, left, right | c in cases && d in cases ensures SameJudges(c.arms.Of(left), d.arms.Of(right)) {
        JudgesThrough(first, c.arms.Of(left), d.arms.Of(right));
      }
    }
  }

  lemma RecordedFits(cases: seq<CaseEvidence>, collation: Collation)
    requires cases != []
    requires ArmsSound(cases) && OneDesign(cases) && SameCaseInputs(cases, collation) && JudgedAlike(cases)
    ensures CasesFit(cases, collation)
  {
    var first := cases[0].arms.Of(Baseline);
    assert cases[0] in cases && first == cases[0].arms.baseline;
    hide ArmSound, RanOnTheSame, JudgedTogether, SameJudges, SameSetting, ArmReps;
    forall c, role | c in cases
      ensures ArmFits(c.caseId, c.arms.Of(role), first)
      ensures role != Baseline ==>
        RanOnTheSame(c.arms.baseline, c.arms.Of(role), collation) && JudgesMatch(c.arms.baseline, c.arms.Of(role))
    {
      assert c.arms.Of(Baseline) == c.arms.baseline;
      assert SameDesign(first, c.arms.Of(role)) && SameDesign(first, c.arms.Of(Baseline));
      assert RanOnTheSame(c.arms.Of(Baseline), c.arms.Of(role), collation);
    }
    forall c | c in cases ensures CaseFits(c, first, collation) {
      assert c.arms.Of(Candidate) == c.arms.candidate && c.arms.Of(Control) == c.arms.control;
      hide ArmFits, JudgesMatch;
    }
  }

  lemma CorporaByRole(cases: seq<CaseEvidence>, collation: Collation)
    requires cases != []
    ensures OneCorpusByRole(cases, collation) <==>
      forall c, role :: c in cases && role in ROLES ==> SameCorpus(cases[0].arms.Of(role), c.arms.Of(role), collation)
  {
    assert cases[0] in cases;
    forall role: Role ensures role in ROLES {
      EveryRole(role);
    }
    hide SortedFiles, Arms.Of;
    if forall c, role :: c in cases && role in ROLES ==> SameCorpus(cases[0].arms.Of(role), c.arms.Of(role), collation) {
      forall c, d, role | c in cases && d in cases
        ensures SortedFiles(c.arms.Of(role).executedCorpus, collation) == SortedFiles(d.arms.Of(role).executedCorpus, collation)
      {
        assert SameCorpus(cases[0].arms.Of(role), c.arms.Of(role), collation);
        assert SameCorpus(cases[0].arms.Of(role), d.arms.Of(role), collation);
      }
    }
  }

  /**
   * The gate's verdict is exactly that on the recorded evidence: every arm is sound in itself, all
   * arms keep one design, the arms of a case ran on the same inputs, the arms in one role executed
   * one corpus, and all were judged alike.
   */
  lemma VerdictIsOnTheRecord(cases: seq<CaseEvidence>, collation: Collation)
    requires PlainCases(cases)
    ensures Comparable(cases, collation) <==> ComparableAsRecorded(cases, collation)
  {
    if cases != [] {
      var first := cases[0].arms.baseline;
      assert first == cases[0].arms.Of(Baseline) && cases[0] in cases;
      CorporaByRole(cases, collation);
      hide CaseAccepted, CaseFits, ArmsSound, OneDesign, SameCaseInputs, JudgedAlike, PlainArm, OneCorpusByRole, SameCorpus;
      forall c | c in cases ensures CaseAccepted(c, first, collation) <==> CaseFits(c, first, collation) {
        CaseAcceptedMeans(c, first, collation);
      }
      if CasesFit(cases, collation) {
        FitIsRecorded(cases, collation);
      }
      if ArmsSound(cases) && OneDesign(cases) && SameCaseInputs(cases, collation) && JudgedAlike(cases) {
        RecordedFits(cases, collation);
      }
    }
  }

  // ---- the comparison, built from its loaded groups

  datatype LoadedCase = LoadedCase(caseId: string, baseline: seq<Arm>, candidate: seq<Arm>, control: seq<Arm>) {
    function Of(role: Role): seq<Arm> {
      match role
      case Baseline => baseline
      case Candidate => candidate
      case Control => control
    }
  }

  datatype Built = Built(cases: seq<CaseEvidence>, contract: Contract)

  ghost predicate CaseLoaded(loaded: LoadedCase) {
    forall role :: loaded.Of(role) != []
  }

  ghost predicate CaseMerges(loaded: LoadedCase, collation: Collation) {
    forall role :: Accepted(loaded.caseId, loaded.Of(role), collation)
  }

  ghost function MergedCase(loaded: LoadedCase): CaseEvidence
    requires CaseLoaded(loaded)
  {
    CaseEvidence(
      loaded.caseId,
      Arms(Merged(loaded.Of(Baseline)), Merged(loaded.Of(Candidate)), Merged(loaded.Of(Control))))
  }

  ghost function MergedCases(loaded: seq<LoadedCase>): seq<CaseEvidence>
    requires forall each :: each in loaded ==> CaseLoaded(each)
  {
    seq(|loaded|, i requires 0 <= i < |loaded| => MergedCase(loaded[i]))
  }

  method MergeCase(loaded: LoadedCase, collation: Collation) returns (r: Result<CaseEvidence>)
    requires CaseLoaded(loaded)
    ensures r.Ok? <==> CaseMerges(loaded, collation)
    ensures r.Ok? ==> r.value == MergedCase(loaded)
  {
    hide JoinsArm, Merged;
    var baseline := MergeArm(loaded.caseId, loaded.Of(Baseline), collation);
    if baseline.Err? {
      return Err(baseline.error);
    }
    var candidate := MergeArm(loaded.caseId, loaded.Of(Candidate), collation);
    if candidate.Err? {
      return Err(candidate.error);
    }
    var control := MergeArm(loaded.caseId, loaded.Of(Control), collation);
    if control.Err? {
      return Err(control.error);
    }
    r := Ok(CaseEvidence(loaded.caseId, Arms(baseline.value, candidate.value, control.value)));
  }

  /** Merges the groups of every arm and puts the arms through the gate. */
  method BuildComparableComparison(loaded: seq<LoadedCase>, collation: Collation) returns (r: Result<Built>)
    requires forall each :: each in loaded ==> CaseLoaded(each)
    ensures r.Ok? <==> (forall each :: each in loaded ==> CaseMerges(each, collation)) && Comparable(MergedCases(loaded), collation)
    ensures r.Ok? ==> r.value.cases == MergedCases(loaded)
    ensures r.Ok? ==> forall c, role :: c in r.value.cases ==>
      var arm := c.arms.Of(role);
      && arm.group.mode == r.value.contract.mode && arm.group.declaredStages == r.value.contract.declaredStages
      && ArmReps(arm.groups) == r.value.contract.reps
  {
    hide CaseMerges, Comparable, MergedCase, CaseLoaded;
    var cases: seq<CaseEvidence> := [];
    for i := 0 to |loaded|
      invariant forall j :: 0 <= j < i ==> CaseMerges(loaded[j], collation)
      invariant cases == MergedCases(loaded)[..i]
    {
      var merged := MergeCase(loaded[i], collation);
      if merged.Err? {
        assert loaded[i] in loaded;
        return Err(merged.error);
      }
      cases := cases + [merged.value];
    }
    assert cases == MergedCases(loaded);
    var contract := AssertComparableComparison(cases, collation);
    if contract.Err? {
      return Err(contract.error);
    }
    r := Ok(Built(cases, contract.value));
    forall c, role | c in cases
      ensures c.arms.Of(role).group.mode == contract.value.mode
        && c.arms.Of(role).group.declaredStages == contract.value.declaredStages
        && ArmReps(c.arms.Of(role).groups) == contract.value.reps
    {
      HubFacts(cases, collation, c, role);
      KeepsTheContract(cases[0].arms.baseline, c.arms.Of(role));
    }
  }

  lemma KeepsTheContract(first: Arm, arm: Arm)
    requires ContractDifference(first, arm) == SAME
    ensures first.group.mode == arm.group.mode && first.group.declaredStages == arm.group.declaredStages
    ensures ArmReps(first.groups) == ArmReps(arm.groups)
  {
    hide SetupKinds, DeliveryRules, JudgeContractDifference, ArmReps;
  }
}
