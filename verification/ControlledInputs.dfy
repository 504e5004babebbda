/** In which field two arms were run on different inputs, if in any. */
module ControlledInputs {
  import opened Wrappers
  import opened Collections
  import opened Ordering
  import opened ComparisonEvidence

  /** A comparison that may refuse; otherwise the first field that differs, if any. */
  type Difference = Result<Option<string>>

  const SAME: Difference := Ok(None)

  function Identity(file: FrozenFile): string {
    file.kind + ":" + file.path
  }

  function InsertFile(file: FrozenFile, sorted: seq<FrozenFile>, collation: Collation): seq<FrozenFile> {
    if sorted == [] then [file]
    else if collation(Identity(file), Identity(sorted[0])) then [file] + sorted
    else [sorted[0]] + InsertFile(file, sorted[1..], collation)
  }

  function SortedFiles(files: seq<FrozenFile>, collation: Collation): seq<FrozenFile> {
    if files == [] then [] else InsertFile(files[0], SortedFiles(files[1..], collation), collation)
  }

  lemma {:induction false} InsertFileKeeps(file: FrozenFile, sorted: seq<FrozenFile>, collation: Collation)
    ensures multiset(InsertFile(file, sorted, collation)) == multiset{file} + multiset(sorted)
  {
    if sorted != [] {
      assert sorted == [sorted[0]] + sorted[1..];
      if !collation(Identity(file), Identity(sorted[0])) {
        InsertFileKeeps(file, sorted[1..], collation);
      }
    }
  }

  lemma {:induction false} SortedFilesKeep(files: seq<FrozenFile>, collation: Collation)
    ensures multiset(SortedFiles(files, collation)) == multiset(files)
  {
    if files != [] {
      assert files == [files[0]] + files[1..];
      SortedFilesKeep(files[1..], collation);
      InsertFileKeeps(files[0], SortedFiles(files[1..], collation), collation);
    }
  }

  function FileAt(files: seq<FrozenFile>, i: nat): Option<FrozenFile> {
    if i < |files| then Some(files[i]) else None
  }

  function FieldOf(left: Option<FrozenFile>, right: Option<FrozenFile>): string {
    if left.Some? then "inputs.files." + Identity(left.value)
    else if right.Some? then "inputs.files." + Identity(right.value)
    else "inputs.files"
  }

  ghost function DifferenceFrom(left: seq<FrozenFile>, right: seq<FrozenFile>, i: nat): Option<string>
    decreases |left| + |right| - i
  {
    if i >= |left| && i >= |right| then None
    else if FileAt(left, i) != FileAt(right, i) then Some(FieldOf(FileAt(left, i), FileAt(right, i)))
    else DifferenceFrom(left, right, i + 1)
  }

  ghost function ControlledFileDifference(left: seq<FrozenFile>, right: seq<FrozenFile>, collation: Collation): Option<string> {
    DifferenceFrom(SortedFiles(left, collation), SortedFiles(right, collation), 0)
  }

  method CompareControlledFiles(left: seq<FrozenFile>, right: seq<FrozenFile>, collation: Collation)
    returns (difference: Option<string>)
    ensures difference == ControlledFileDifference(left, right, collation)
  {
    var leftFiles, rightFiles := SortedFiles(left, collation), SortedFiles(right, collation);
    var maximum := if |leftFiles| < |rightFiles| then |rightFiles| else |leftFiles|;
    for i := 0 to maximum
      invariant DifferenceFrom(leftFiles, rightFiles, 0) == DifferenceFrom(leftFiles, rightFiles, i)
    {
      if FileAt(leftFiles, i) != FileAt(rightFiles, i) {
        return Some(FieldOf(FileAt(leftFiles, i), FileAt(rightFiles, i)));
      }
    }
    difference := None;
  }

  lemma {:induction false} DifferenceFromMeans(left: seq<FrozenFile>, right: seq<FrozenFile>, i: nat)
    ensures DifferenceFrom(left, right, i).None? <==> forall j: nat :: j >= i ==> FileAt(left, j) == FileAt(right, j)
    decreases |left| + |right| - i
  {
    if (i < |left| || i < |right|) && FileAt(left, i) == FileAt(right, i) {
      DifferenceFromMeans(left, right, i + 1);
    }
  }

  /** The field a file difference names: that of the left side's file there, or of the right's where the left has none. */
  ghost predicate NamesFile(field: string, left: seq<FrozenFile>, right: seq<FrozenFile>, i: nat) {
    && (i < |left| ==> field == "inputs.files." + left[i].kind + ":" + left[i].path)
    && (i >= |left| && i < |right| ==> field == "inputs.files." + right[i].kind + ":" + right[i].path)
  }

  /** Position `i` is the first, from `from` on, where the lists do not hold the same file. */
  ghost predicate FirstApart(left: seq<FrozenFile>, right: seq<FrozenFile>, from: nat, i: nat) {
    && from <= i && FileAt(left, i) != FileAt(right, i)
    && forall j: nat :: from <= j < i ==> FileAt(left, j) == FileAt(right, j)
  }

  lemma {:induction false} DifferenceFromNames(left: seq<FrozenFile>, right: seq<FrozenFile>, from: nat) returns (i: nat)
    requires DifferenceFrom(left, right, from).Some?
    ensures FirstApart(left, right, from, i) && NamesFile(DifferenceFrom(left, right, from).value, left, right, i)
    decreases |left| + |right| - from
  {
    if FileAt(left, from) == FileAt(right, from) {
      i := DifferenceFromNames(left, right, from + 1);
    } else {
      i := from;
      NamedHere(left, right, from);
    }
  }

  lemma NamedHere(left: seq<FrozenFile>, right: seq<FrozenFile>, i: nat)
    requires FileAt(left, i) != FileAt(right, i)
    ensures NamesFile(FieldOf(FileAt(left, i), FileAt(right, i)), left, right, i)
  {
    var file := if i < |left| then left[i] else right[i];
    assert "inputs.files." + (file.kind + ":" + file.path) == "inputs.files." + file.kind + ":" + file.path;
  }

  /** A file difference names the first file, in sorted order, that the two sides do not share. */
  lemma FileDifferenceNames(left: seq<FrozenFile>, right: seq<FrozenFile>, collation: Collation) returns (i: nat)
    requires ControlledFileDifference(left, right, collation).Some?
    ensures var l, r := SortedFiles(left, collation), SortedFiles(right, collation);
      FirstApart(l, r, 0, i) && NamesFile(ControlledFileDifference(left, right, collation).value, l, r, i)
  {
    i := DifferenceFromNames(SortedFiles(left, collation), SortedFiles(right, collation), 0);
  }

  /** No file differs exactly when the sorted lists are equal, and then both sides froze the same files. */
  lemma NoFileDiffers(left: seq<FrozenFile>, right: seq<FrozenFile>, collation: Collation)
    ensures ControlledFileDifference(left, right, collation).None? <==>
      SortedFiles(left, collation) == SortedFiles(right, collation)
    ensures ControlledFileDifference(left, right, collation).None? ==> multiset(left) == multiset(right)
  {
    var l, r := SortedFiles(left, collation), SortedFiles(right, collation);
    DifferenceFromMeans(l, r, 0);
    SortedFilesKeep(left, collation);
    SortedFilesKeep(right, collation);
    if forall j: nat :: j >= 0 ==> FileAt(l, j) == FileAt(r, j) {
      assert FileAt(l, |r|) == FileAt(r, |r|) && FileAt(l, |l|) == FileAt(r, |l|);
      assert |l| == |r|;
      assert forall j: nat :: j < |l| ==> FileAt(l, j).value == l[j] && FileAt(r, j).value == r[j];
    }
  }

  ghost predicate InOrder(files: seq<FrozenFile>, collation: Collation) {
    forall i, j :: 0 <= i < j < |files| ==> collation(Identity(files[i]), Identity(files[j]))
  }

  lemma InOrderCons(first: FrozenFile, rest: seq<FrozenFile>, collation: Collation)
    requires InOrder(rest, collation)
    requires forall g :: g in multiset(rest) ==> collation(Identity(first), Identity(g))
    ensures InOrder([first] + rest, collation)
  {
    forall j | 0 <= j < |rest| ensures collation(Identity(first), Identity(rest[j])) {
      assert rest[j] in multiset(rest);
    }
  }

  lemma FirstIsLeast(sorted: seq<FrozenFile>, collation: Collation)
    requires sorted != [] && InOrder(sorted, collation) && IsTotalOrder(collation)
    ensures forall g :: g in multiset(sorted) ==> collation(Identity(sorted[0]), Identity(g))
  {
    forall g | g in multiset(sorted) ensures collation(Identity(sorted[0]), Identity(g)) {
      var i :| 0 <= i < |sorted| && sorted[i] == g;
    }
  }

  lemma {:induction false} InsertInOrder(file: FrozenFile, sorted: seq<FrozenFile>, collation: Collation)
    requires InOrder(sorted, collation) && IsTotalOrder(collation)
    ensures InOrder(InsertFile(file, sorted, collation), collation)
  {
    if sorted != [] {
      FirstIsLeast(sorted, collation);
      assert sorted == [sorted[0]] + sorted[1..];
      if collation(Identity(file), Identity(sorted[0])) {
        InOrderCons(file, sorted, collation);
      } else {
        InsertInOrder(file, sorted[1..], collation);
        InsertFileKeeps(file, sorted[1..], collation);
        InOrderCons(sorted[0], InsertFile(file, sorted[1..], collation), collation);
      }
    }
  }

  lemma {:induction false} SortedInOrder(files: seq<FrozenFile>, collation: Collation)
    requires IsTotalOrder(collation)
    ensures InOrder(SortedFiles(files, collation), collation)
  {
    if files != [] {
      SortedInOrder(files[1..], collation);
      InsertInOrder(files[0], SortedFiles(files[1..], collation), collation);
    }
  }

  /** No two of these files go by one name. */
  ghost predicate NamedApart(files: multiset<FrozenFile>) {
    forall f, g :: f in files && g in files && Identity(f) == Identity(g) ==> f == g
  }

  lemma SameFirst(a: seq<FrozenFile>, b: seq<FrozenFile>, collation: Collation)
    requires multiset(a) == multiset(b) && NamedApart(multiset(a)) && IsTotalOrder(collation)
    requires InOrder(a, collation) && InOrder(b, collation) && a != [] && b != []
    ensures a[0] == b[0]
  {
    FirstIsLeast(a, collation);
    FirstIsLeast(b, collation);
    assert a[0] in multiset(a) && b[0] in multiset(b);
    hide InOrder;
    assert Identity(a[0]) == Identity(b[0]);
  }

  lemma {:induction false} OrderedListUnique(a: seq<FrozenFile>, b: seq<FrozenFile>, collation: Collation)
    requires multiset(a) == multiset(b) && NamedApart(multiset(a)) && IsTotalOrder(collation)
    requires InOrder(a, collation) && InOrder(b, collation)
    ensures a == b
  {
    hide IsTotalOrder, InOrder, NamedApart;
    PermutationSize(a, b);
    if a != [] {
      SameFirst(a, b, collation);
      InOrderTail(a, collation);
      InOrderTail(b, collation);
      TailOfPermutation(a, b);
      OrderedListUnique(a[1..], b[1..], collation);
      assert a == [a[0]] + a[1..] && b == [b[0]] + b[1..];
    }
  }

  lemma InOrderTail(files: seq<FrozenFile>, collation: Collation)
    requires files != [] && InOrder(files, collation)
    ensures InOrder(files[1..], collation)
  {
  }

  lemma TailOfPermutation(a: seq<FrozenFile>, b: seq<FrozenFile>)
    requires multiset(a) == multiset(b) && a != [] && b != [] && a[0] == b[0] && NamedApart(multiset(a))
    ensures multiset(a[1..]) == multiset(b[1..]) && NamedApart(multiset(a[1..]))
  {
    assert a == [a[0]] + a[1..] && b == [b[0]] + b[1..];
    assert multiset(a[1..]) == multiset(a) - multiset{a[0]};
    assert multiset(b[1..]) == multiset(b) - multiset{b[0]};
  }

  /** Freezing the same files, in whatever order, shows no difference. */
  lemma SameFilesShowNone(left: seq<FrozenFile>, right: seq<FrozenFile>, collation: Collation)
    requires IsTotalOrder(collation) && NamedApart(multiset(left)) && multiset(left) == multiset(right)
    ensures ControlledFileDifference(left, right, collation).None?
  {
    SortedInOrder(left, collation);
    SortedInOrder(right, collation);
    SortedFilesKeep(left, collation);
    SortedFilesKeep(right, collation);
    OrderedListUnique(SortedFiles(left, collation), SortedFiles(right, collation), collation);
    NoFileDiffers(left, right, collation);
  }

  /** The first pair of a list of named values that differs. */
  function FirstDifference(fields: seq<(string, bool)>): Option<string> {
    if fields == [] then None else if fields[0].1 then Some(fields[0].0) else FirstDifference(fields[1..])
  }

  /** A list of values compared names the first one that differs. */
  lemma {:induction false} FirstDifferenceNames(fields: seq<(string, bool)>) returns (i: nat)
    requires FirstDifference(fields).Some?
    ensures i < |fields| && fields[i].1 && FirstDifference(fields) == Some(fields[i].0)
    ensures forall j :: 0 <= j < i ==> !fields[j].1
  {
    i := 0;
    if !fields[0].1 {
      i := FirstDifferenceNames(fields[1..]);
      assert forall j :: 0 < j < i + 1 ==> fields[j] == fields[1..][j - 1];
      i := i + 1;
    }
  }

  lemma {:induction false} FirstDifferenceNone(fields: seq<(string, bool)>)
    ensures FirstDifference(fields).None? <==> forall i :: 0 <= i < |fields| ==> !fields[i].1
  {
    if fields != [] {
      FirstDifferenceNone(fields[1..]);
      if forall i :: 0 <= i < |fields| ==> !fields[i].1 {
        assert forall i :: 0 <= i < |fields[1..]| ==> fields[1..][i] == fields[i + 1];
      }
      if FirstDifference(fields).None? {
        forall i | 0 <= i < |fields| ensures !fields[i].1 {
          assert i > 0 ==> fields[i] == fields[1..][i - 1];
        }
      }
    }
  }

  const SESSION_CASE_FIELDS: seq<string> := [
    "id", "title", "prompt", "fixture", "transcript", "tools", "settings", "agents", "projectFiles", "checks",
    "stateCheck", "judge", "model", "sessionBudgetUsd"]

  function ValuesOf(c: SessionCase): seq<string> {
    [c.id, c.title, c.prompt, c.fixture, c.transcript, c.tools, c.settings, c.agents, c.projectFiles, c.checks,
     c.stateCheck, c.judge, c.model, c.sessionBudgetUsd]
  }

  function SessionCaseFields(l: SessionCase, r: SessionCase): seq<(string, bool)> {
    var left, right := ValuesOf(l), ValuesOf(r);
    seq(14, i requires 0 <= i < 14 => ("inputs.files.case." + SESSION_CASE_FIELDS[i], left[i] != right[i]))
  }

  function SessionCaseDifference(left: Option<SessionCase>, right: Option<SessionCase>): Option<string> {
    if left.None? || right.None? then Some("inputs.files.case")
    else FirstDifference(SessionCaseFields(left.value, right.value))
  }

  lemma ValuesTell(l: SessionCase, r: SessionCase)
    requires ValuesOf(l) == ValuesOf(r)
    ensures l == r
  {
    var a, b := ValuesOf(l), ValuesOf(r);
    assert a[0] == b[0] && a[1] == b[1] && a[2] == b[2] && a[3] == b[3] && a[4] == b[4] && a[5] == b[5] && a[6] == b[6];
    assert a[7] == b[7] && a[8] == b[8] && a[9] == b[9] && a[10] == b[10] && a[11] == b[11] && a[12] == b[12] && a[13] == b[13];
  }

  /** Two session cases show no difference exactly when both were parsed and every declared field is the same. */
  lemma SameSessionCase(left: Option<SessionCase>, right: Option<SessionCase>)
    ensures SessionCaseDifference(left, right).None? <==> left.Some? && left == right
  {
    if left.Some? && right.Some? {
      var fields := SessionCaseFields(left.value, right.value);
      FirstDifferenceNone(fields);
      hide FirstDifference;
      var a, b := ValuesOf(left.value), ValuesOf(right.value);
      if forall i :: 0 <= i < |fields| ==> !fields[i].1 {
        forall i | 0 <= i < 14 ensures a[i] == b[i] {
          assert !fields[i].1;
        }
        assert a == b;
        ValuesTell(left.value, right.value);
      }
    }
  }

  function JoinWithCommas(values: seq<string>): string {
    if values == [] then "" else if |values| == 1 then values[0] else values[0] + "," + JoinWithCommas(values[1..])
  }

  function SetupOf(rep: Rep): string {
    if rep.attempt.Some? && rep.attempt.value.setupKind.Some? then rep.attempt.value.setupKind.value else "isolated"
  }

  function DeliveryOf(rep: Rep): string {
    if rep.attempt.Some? && rep.attempt.value.deliveryRule.Some? then rep.attempt.value.deliveryRule.value else "none"
  }

  function KindsJoined(kinds: seq<string>): string {
    JoinWithCommas(SortStrings(Distinct(kinds)))
  }

  function SetupKinds(arm: Arm): string {
    if arm.group.mode != SessionMode then
      if arm.group.inputs.setup.Some? then arm.group.inputs.setup.value else "project"
    else KindsJoined(Map(arm.reps, SetupOf))
  }

  function DeliveryRules(arm: Arm): string {
    if arm.group.mode != SessionMode then
      if arm.group.inputs.deliveryRule.Some? then arm.group.inputs.deliveryRule.value else "none"
    else KindsJoined(Map(arm.reps, DeliveryOf))
  }

  function SetupDifference(reference: Arm, other: Arm): Option<string> {
    if SetupKinds(reference) != SetupKinds(other) then Some("setup")
    else if DeliveryRules(reference) == DeliveryRules(other) then None
    else Some("corpusDelivery")
  }

  function NonCaseFiles(files: seq<FrozenFile>): seq<FrozenFile> {
    if files == [] then []
    else (if files[0].kind != "case" then [files[0]] else []) + NonCaseFiles(files[1..])
  }

  ghost function SessionInputDifference(reference: Arm, other: Arm, collation: Collation): Option<string> {
    var caseDifference := SessionCaseDifference(reference.sessionCase, other.sessionCase);
    if caseDifference.Some? then caseDifference
    else
      var files := ControlledFileDifference(
        NonCaseFiles(reference.controlledFiles), NonCaseFiles(other.controlledFiles), collation);
      if files.Some? then files
      else
        var l, r := reference.group.inputs, other.group.inputs;
        FirstDifference([
          ("inputs.model", l.model != r.model),
          ("inputs.effort", l.effort != r.effort),
          ("inputs.sessionBudgetUsd", l.sessionBudgetUsd != r.sessionBudgetUsd)])
  }

  function StageFields(l: GroupInputs, r: GroupInputs): seq<(string, bool)> {
    [("inputs.lineage", l.lineage != r.lineage),
     ("inputs.model", l.model != r.model),
     ("inputs.effort", l.effort != r.effort),
     ("inputs.judgeModel", l.judgeModel != r.judgeModel),
     ("inputs.judgeEffort", l.judgeEffort != r.judgeEffort),
     ("inputs.sessionBudgetUsd", l.sessionBudgetUsd != r.sessionBudgetUsd),
     ("inputs.pipelinePath", l.pipelinePath != r.pipelinePath)]
  }

  ghost function StageInputDifference(reference: Arm, other: Arm, collation: Collation): Option<string> {
    var files := ControlledFileDifference(reference.controlledFiles, other.controlledFiles, collation);
    if files.Some? then files else FirstDifference(StageFields(reference.group.inputs, other.group.inputs))
  }

  // ---- judges

  function JudgesOf(reps: seq<Rep>): seq<SessionJudge> {
    if reps == [] then []
    else
      (if reps[0].attempt.Some? && reps[0].attempt.value.judge.Some? then [reps[0].attempt.value.judge.value] else [])
      + JudgesOf(reps[1..])
  }

  function ContractsOf(judges: seq<SessionJudge>): seq<string> {
    if judges == [] then []
    else (if judges[0].contract.Some? then [judges[0].contract.value] else []) + ContractsOf(judges[1..])
  }

  predicate Unknown(judge: SessionJudge) {
    judge.providerCalls > 0 && judge.contract.None?
  }

  /** The one judge contract of a session arm's attempts, refused when one is unknown or two differ. */
  function SessionJudgeContract(arm: Arm): Result<Option<string>> {
    var judges := JudgesOf(arm.reps);
    var contracts := Distinct(ContractsOf(judges));
    if (exists judge :: judge in judges && Unknown(judge)) || |contracts| > 1 then
      Err("judgeContractSha256 is missing or inconsistent across session attempts")
    else Ok(if contracts == [] then None else Some(contracts[0]))
  }

  function SessionJudgeDifference(reference: Arm, other: Arm): Difference {
    var left := SessionJudgeContract(reference);
    var right := SessionJudgeContract(other);
    if left.Err? then Err(left.error)
    else if right.Err? then Err(right.error)
    else if left.value.Some? && right.value.Some? && left.value != right.value then Ok(Some("inputs.judgeContractSha256"))
    else SAME
  }

  function JudgeContractDifference(reference: Arm, other: Arm): Difference {
    var left, right := reference.group, other.group;
    if left.mode == SessionMode || right.mode == SessionMode then SessionJudgeDifference(reference, other)
    else if left.inputs.judgeContractSha256.None? || right.inputs.judgeContractSha256.None?
         || left.inputs.judgeContractSha256 != right.inputs.judgeContractSha256 then
      Ok(Some("inputs.judgeContractSha256"))
    else if left.mode == PipelineMode
         && (left.inputs.finalJudgeContractSha256.None? || right.inputs.finalJudgeContractSha256.None?
             || left.inputs.finalJudgeContractSha256 != right.inputs.finalJudgeContractSha256) then
      Ok(Some("inputs.finalJudgeContractSha256"))
    else SAME
  }

  ghost function ControlledInputDifference(reference: Arm, other: Arm, collation: Collation): Difference {
    var left, right := reference.group.mode, other.group.mode;
    if (left == SessionMode) != (right == SessionMode) then Ok(Some("mode"))
    else
      var setup := SetupDifference(reference, other);
      var inputs := if left == SessionMode then SessionInputDifference(reference, other, collation)
        else StageInputDifference(reference, other, collation);
      if setup.Some? then Ok(setup)
      else if inputs.Some? then Ok(inputs)
      else JudgeContractDifference(reference, other)
  }

  // ---- what no difference means

  /** Everything the comparison of two arms reads, apart from their judges. */
  ghost predicate SameInputs(a: Arm, b: Arm, collation: Collation) {
    && (a.group.mode == SessionMode <==> b.group.mode == SessionMode)
    && SetupKinds(a) == SetupKinds(b) && DeliveryRules(a) == DeliveryRules(b)
    && a.group.inputs.model == b.group.inputs.model && a.group.inputs.effort == b.group.inputs.effort
    && a.group.inputs.sessionBudgetUsd == b.group.inputs.sessionBudgetUsd
    && if a.group.mode == SessionMode then
         && a.sessionCase.Some? && a.sessionCase == b.sessionCase
         && SortedFiles(NonCaseFiles(a.controlledFiles), collation) == SortedFiles(NonCaseFiles(b.controlledFiles), collation)
       else
         && SortedFiles(a.controlledFiles, collation) == SortedFiles(b.controlledFiles, collation)
         && a.group.inputs.lineage == b.group.inputs.lineage
         && a.group.inputs.judgeModel == b.group.inputs.judgeModel && a.group.inputs.judgeEffort == b.group.inputs.judgeEffort
         && a.group.inputs.pipelinePath == b.group.inputs.pipelinePath
  }

  lemma StageFieldsSame(l: GroupInputs, r: GroupInputs)
    ensures FirstDifference(StageFields(l, r)).None? <==>
      && l.lineage == r.lineage && l.model == r.model && l.effort == r.effort && l.judgeModel == r.judgeModel
      && l.judgeEffort == r.judgeEffort && l.sessionBudgetUsd == r.sessionBudgetUsd && l.pipelinePath == r.pipelinePath
  {
    var fields := StageFields(l, r);
    FirstDifferenceNone(fields);
    assert fields[0].1 == (l.lineage != r.lineage) && fields[1].1 == (l.model != r.model)
      && fields[2].1 == (l.effort != r.effort) && fields[3].1 == (l.judgeModel != r.judgeModel)
      && fields[4].1 == (l.judgeEffort != r.judgeEffort) && fields[5].1 == (l.sessionBudgetUsd != r.sessionBudgetUsd)
      && fields[6].1 == (l.pipelinePath != r.pipelinePath);
  }

  lemma SessionFieldsSame(l: GroupInputs, r: GroupInputs)
    ensures FirstDifference([
        ("inputs.model", l.model != r.model),
        ("inputs.effort", l.effort != r.effort),
        ("inputs.sessionBudgetUsd", l.sessionBudgetUsd != r.sessionBudgetUsd)]).None? <==>
      l.model == r.model && l.effort == r.effort && l.sessionBudgetUsd == r.sessionBudgetUsd
  {
    var fields := [
      ("inputs.model", l.model != r.model),
      ("inputs.effort", l.effort != r.effort),
      ("inputs.sessionBudgetUsd", l.sessionBudgetUsd != r.sessionBudgetUsd)];
    FirstDifferenceNone(fields);
    assert fields[0].1 == (l.model != r.model) && fields[1].1 == (l.effort != r.effort)
      && fields[2].1 == (l.sessionBudgetUsd != r.sessionBudgetUsd);
  }

  /** Two arms show no difference exactly when they ran on the same inputs under the same judge. */
  lemma NoDifferenceMeans(a: Arm, b: Arm, collation: Collation)
    ensures ControlledInputDifference(a, b, collation) == SAME <==>
      SameInputs(a, b, collation) && JudgeContractDifference(a, b) == SAME
  {
    hide JudgeContractDifference, SetupKinds, DeliveryRules, SortedFiles, FirstDifference;
    if a.group.mode == SessionMode {
      SameSessionCase(a.sessionCase, b.sessionCase);
      NoFileDiffers(NonCaseFiles(a.controlledFiles), NonCaseFiles(b.controlledFiles), collation);
      SessionFieldsSame(a.group.inputs, b.group.inputs);
    } else {
      NoFileDiffers(a.controlledFiles, b.controlledFiles, collation);
      StageFieldsSame(a.group.inputs, b.group.inputs);
    }
  }

  /** The stage and pipeline judge check reads only the left arm's mode; this is what it then asks for. */
  lemma JudgesAgreeWhen(a: Arm, b: Arm)
    requires a.group.mode != SessionMode && b.group.mode != SessionMode
    ensures JudgeContractDifference(a, b) == SAME <==>
      && a.group.inputs.judgeContractSha256.Some?
      && a.group.inputs.judgeContractSha256 == b.group.inputs.judgeContractSha256
      && (a.group.mode == PipelineMode ==>
            a.group.inputs.finalJudgeContractSha256.Some?
            && a.group.inputs.finalJudgeContractSha256 == b.group.inputs.finalJudgeContractSha256)
  {
  }

  /** Both arms name one judge contract for their stages. */
  predicate OneStageJudge(a: Arm, b: Arm) {
    a.group.inputs.judgeContractSha256.Some? && a.group.inputs.judgeContractSha256 == b.group.inputs.judgeContractSha256
  }

  /** Both arms name one judge contract for their final outcomes. */
  predicate OneFinalJudge(a: Arm, b: Arm) {
    a.group.inputs.finalJudgeContractSha256.Some?
    && a.group.inputs.finalJudgeContractSha256 == b.group.inputs.finalJudgeContractSha256
  }

  /**
   * Swapping two stage or pipeline arms changes the judge verdict exactly when a pipeline arm
   * meets a stage arm with its stage judge and without its final judge.
   */
  lemma JudgeCheckSymmetric(a: Arm, b: Arm)
    requires a.group.mode != SessionMode && b.group.mode != SessionMode
    ensures (JudgeContractDifference(a, b) == SAME <==> JudgeContractDifference(b, a) == SAME) <==>
      a.group.mode == b.group.mode || OneFinalJudge(a, b) || !OneStageJudge(a, b)
  {
    JudgesAgreeWhen(a, b);
    JudgesAgreeWhen(b, a);
    hide JudgeContractDifference;
  }

  // ---- session judges, read off the attempts

  function JudgeIn(rep: Rep): Option<SessionJudge> {
    if rep.attempt.Some? then rep.attempt.value.judge else None
  }

  function ContractIn(rep: Rep): Option<string> {
    if JudgeIn(rep).Some? then JudgeIn(rep).value.contract else None
  }

  /** Every attempt a judge was called for recorded its contract. */
  ghost predicate AllKnown(reps: seq<Rep>) {
    forall rep :: rep in reps && JudgeIn(rep).Some? && JudgeIn(rep).value.providerCalls > 0 ==>
      JudgeIn(rep).value.contract.Some?
  }

  /** No two attempts recorded different contracts. */
  ghost predicate OneContract(reps: seq<Rep>) {
    forall x, y :: x in reps && y in reps && ContractIn(x).Some? && ContractIn(y).Some? ==> ContractIn(x) == ContractIn(y)
  }

  lemma {:induction false} JudgesListed(reps: seq<Rep>, judge: SessionJudge)
    ensures judge in JudgesOf(reps) <==> exists rep :: rep in reps && JudgeIn(rep) == Some(judge)
  {
    if reps != [] {
      JudgesListed(reps[1..], judge);
      assert reps[0] in reps;
      if rep :| rep in reps[1..] && JudgeIn(rep) == Some(judge) {
        assert rep in reps;
      }
      if rep :| rep in reps && JudgeIn(rep) == Some(judge) {
        assert rep == reps[0] || rep in reps[1..];
      }
    }
  }

  lemma {:induction false} ContractsListed(reps: seq<Rep>, contract: string)
    ensures contract in ContractsOf(JudgesOf(reps)) <==> exists rep :: rep in reps && ContractIn(rep) == Some(contract)
  {
    if reps != [] {
      ContractsListed(reps[1..], contract);
      assert reps[0] in reps;
      if rep :| rep in reps[1..] && ContractIn(rep) == Some(contract) {
        assert rep in reps;
      }
      if rep :| rep in reps && ContractIn(rep) == Some(contract) {
        assert rep == reps[0] || rep in reps[1..];
      }
      var rest := JudgesOf(reps[1..]);
      if JudgeIn(reps[0]).Some? {
        assert JudgesOf(reps) == [JudgeIn(reps[0]).value] + rest;
        assert JudgesOf(reps)[1..] == rest;
      } else {
        assert JudgesOf(reps) == rest;
      }
      assert contract in ContractsOf(JudgesOf(reps)) <==> ContractIn(reps[0]) == Some(contract) || contract in ContractsOf(rest);
    }
  }

  lemma AtMostOne(contracts: seq<string>)
    ensures |Distinct(contracts)| <= 1 <==> forall x, y :: x in contracts && y in contracts ==> x == y
    ensures Distinct(contracts) != [] ==> Distinct(contracts)[0] in contracts
    ensures Distinct(contracts) == [] ==> contracts == []
  {
    var distinct := Distinct(contracts);
    DistinctElements(contracts);
    hide Distinct;
    assert forall x :: x in contracts <==> x in Elements(contracts);
    assert forall x :: x in distinct <==> x in Elements(distinct);
    if |distinct| > 1 {
      assert distinct[0] in contracts && distinct[1] in contracts && distinct[0] != distinct[1];
    }
    if contracts != [] {
      assert contracts[0] in distinct;
    }
    if distinct != [] {
      assert distinct[0] in distinct;
    }
  }

  /** A session arm has a judge contract to report when its attempts agree, and then it is theirs. */
  lemma SessionContractMeans(arm: Arm)
    ensures SessionJudgeContract(arm).Ok? <==> AllKnown(arm.reps) && OneContract(arm.reps)
    ensures SessionJudgeContract(arm).Ok? ==> forall contract ::
      SessionJudgeContract(arm).value == Some(contract) <==> exists rep :: rep in arm.reps && ContractIn(rep) == Some(contract)
  {
    var judges := JudgesOf(arm.reps);
    var contracts := ContractsOf(judges);
    forall judge ensures judge in judges <==> exists rep :: rep in arm.reps && JudgeIn(rep) == Some(judge) {
      JudgesListed(arm.reps, judge);
    }
    forall contract ensures contract in contracts <==> exists rep :: rep in arm.reps && ContractIn(rep) == Some(contract) {
      ContractsListed(arm.reps, contract);
    }
    AtMostOne(contracts);
    hide JudgesOf, ContractsOf, Distinct, JudgeIn, ContractIn;
    KnownFromJudges(arm.reps, judges);
    OneFromContracts(arm.reps, contracts);
  }

  lemma KnownFromJudges(reps: seq<Rep>, judges: seq<SessionJudge>)
    requires forall judge :: judge in judges <==> exists rep :: rep in reps && JudgeIn(rep) == Some(judge)
    ensures AllKnown(reps) <==> forall judge :: judge in judges ==> !Unknown(judge)
  {
    hide JudgeIn;
    if forall judge :: judge in judges ==> !Unknown(judge) {
      forall rep | rep in reps && JudgeIn(rep).Some? ensures !Unknown(JudgeIn(rep).value) {
        assert JudgeIn(rep) == Some(JudgeIn(rep).value);
        assert JudgeIn(rep).value in judges;
      }
    }
    if AllKnown(reps) {
      forall judge | judge in judges ensures !Unknown(judge) {
        var rep :| rep in reps && JudgeIn(rep) == Some(judge);
      }
    }
  }

  lemma OneFromContracts(reps: seq<Rep>, contracts: seq<string>)
    requires forall contract :: contract in contracts <==> exists rep :: rep in reps && ContractIn(rep) == Some(contract)
    ensures OneContract(reps) <==> forall x, y :: x in contracts && y in contracts ==> x == y
  {
    hide ContractIn;
    if forall x, y :: x in contracts && y in contracts ==> x == y {
      forall x, y | x in reps && y in reps && ContractIn(x).Some? && ContractIn(y).Some? ensures ContractIn(x) == ContractIn(y) {
        assert ContractIn(x) == Some(ContractIn(x).value) && ContractIn(y) == Some(ContractIn(y).value);
        assert ContractIn(x).value in contracts && ContractIn(y).value in contracts;
      }
    }
  }
}
