/** An arm's groups merged into one arm, its row in the report, and the report's own check of that row. */
module ReportArm {
  import opened Wrappers
  import opened Collections
  import opened ComparisonEvidence
  import opened ControlledInputs
  import opened Comparability

  ghost function GroupDifference(reference: Arm, other: Arm, collation: Collation): Difference {
    if reference.group.mode != other.group.mode then Ok(Some("mode"))
    else if reference.group.declaredStages != other.group.declaredStages then Ok(Some("declaredStages"))
    else
      var controlled := ControlledInputDifference(reference, other, collation);
      if controlled != SAME then controlled
      else if !SameCorpus(reference, other, collation) then Ok(Some("inputs.files.corpus"))
      else SAME
  }

  ghost predicate JoinsArm(caseId: string, groups: seq<Arm>, i: nat, collation: Collation)
    requires i < |groups|
  {
    && (forall j :: 0 <= j < i ==> groups[j].group.groupId != groups[i].group.groupId)
    && RanTheCase(caseId, groups[i]) && JudgeContractKept(groups[i])
    && GroupDifference(groups[0], groups[i], collation) == SAME
  }

  function RecordOf(arm: Arm): GroupRecord {
    arm.group
  }

  function AllReps(groups: seq<Arm>): seq<Rep> {
    if groups == [] then [] else groups[0].reps + AllReps(groups[1..])
  }

  function Merged(groups: seq<Arm>): Arm
    requires groups != []
  {
    if |groups| == 1 then groups[0] else groups[0].(groups := Map(groups, RecordOf), reps := AllReps(groups))
  }

  /** Reads an arm's groups, each already projected, as one arm, or refuses. */
  method MergeArm(caseId: string, groups: seq<Arm>, collation: Collation) returns (r: Result<Arm>)
    requires groups != []
    ensures r.Ok? <==> forall i :: 1 <= i < |groups| ==> JoinsArm(caseId, groups, i, collation)
    ensures r.Ok? ==> r.value == Merged(groups)
  {
    hide ControlledInputDifference, JudgeContractKept;
    var named := {groups[0].group.groupId};
    var i := 1;
    while i < |groups|
      invariant 1 <= i <= |groups|
      invariant named == set j | 0 <= j < i :: groups[j].group.groupId
      invariant forall j :: 1 <= j < i ==> JoinsArm(caseId, groups, j, collation)
    {
      var other := groups[i];
      if other.group.groupId in named {
        assert !JoinsArm(caseId, groups, i, collation) by {
          ghost var j :| 0 <= j < i && groups[j].group.groupId == other.group.groupId;
        }
        return Err("group is named twice");
      }
      named := named + {other.group.groupId};
      if !RanTheCase(caseId, other) || !JudgeContractKept(other) {
        assert !JoinsArm(caseId, groups, i, collation);
        return Err("group did not run the case under one judge");
      }
      var difference := Compare(groups[0], other, collation);
      if difference != SAME {
        assert !JoinsArm(caseId, groups, i, collation);
        return Err("group field differs from the first group");
      }
      i := i + 1;
    }
    r := Ok(Merged(groups));
  }

  method Compare(reference: Arm, other: Arm, collation: Collation) returns (difference: Difference)
    ensures difference == GroupDifference(reference, other, collation)
  {
    hide ControlledInputDifference;
    if reference.group.mode != other.group.mode {
      return Ok(Some("mode"));
    }
    if reference.group.declaredStages != other.group.declaredStages {
      return Ok(Some("declaredStages"));
    }
    difference := DifferenceOf(reference, other, collation);
    if difference == SAME && !SameCorpus(reference, other, collation) {
      difference := Ok(Some("inputs.files.corpus"));
    }
  }

  ghost predicate Accepted(caseId: string, groups: seq<Arm>, collation: Collation) {
    groups != [] && forall i :: 1 <= i < |groups| ==> JoinsArm(caseId, groups, i, collation)
  }

  lemma GroupFacts(reference: Arm, other: Arm, collation: Collation)
    requires GroupDifference(reference, other, collation) == SAME
    ensures reference.group.mode == other.group.mode && reference.group.declaredStages == other.group.declaredStages
    ensures SameInputs(reference, other, collation) && SameCorpus(reference, other, collation)
    ensures JudgeContractDifference(reference, other) == SAME
  {
    NoDifferenceMeans(reference, other, collation);
  }

  lemma GroupsAlike(a: Arm, b: Arm, collation: Collation)
    requires a.group.mode == b.group.mode && a.group.declaredStages == b.group.declaredStages
    requires SameInputs(a, b, collation) && SameCorpus(a, b, collation) && JudgeContractDifference(a, b) == SAME
    ensures GroupDifference(a, b, collation) == SAME
  {
    NoDifferenceMeans(a, b, collation);
  }

  /** Every two groups of a merged stage or pipeline arm agree, though each was compared with the first only. */
  lemma GroupsAgree(caseId: string, groups: seq<Arm>, collation: Collation, i: nat, j: nat)
    requires Accepted(caseId, groups, collation) && i < |groups| && j < |groups| && i != j
    requires groups[0].group.mode != SessionMode
    ensures GroupDifference(groups[i], groups[j], collation) == SAME
  {
    hide GroupDifference, SameInputs, SameCorpus, JudgeContractKept;
    var hub := groups[0];
    var k := if i == 0 then j else i;
    assert JoinsArm(caseId, groups, k, collation);
    GroupFacts(hub, groups[k], collation);
    if i > 0 {
      assert JoinsArm(caseId, groups, i, collation);
      GroupFacts(hub, groups[i], collation);
    }
    if j > 0 {
      assert JoinsArm(caseId, groups, j, collation);
      GroupFacts(hub, groups[j], collation);
    }
    FirstAgreesWithItself(hub, groups[k], collation);
    AgreeThroughFirst(hub, groups[i], groups[j], collation);
  }

  lemma FirstAgreesWithItself(hub: Arm, other: Arm, collation: Collation)
    requires hub.group.mode == other.group.mode && hub.group.mode != SessionMode
    requires SameInputs(hub, other, collation) && JudgeContractDifference(hub, other) == SAME
    ensures SameInputs(hub, hub, collation) && SameCorpus(hub, hub, collation)
    ensures JudgeContractDifference(hub, hub) == SAME
  {
  }

  lemma AgreeThroughFirst(hub: Arm, a: Arm, b: Arm, collation: Collation)
    requires hub.group.mode == a.group.mode == b.group.mode && hub.group.mode != SessionMode
    requires hub.group.declaredStages == a.group.declaredStages == b.group.declaredStages
    requires SameInputs(hub, a, collation) && SameInputs(hub, b, collation)
    requires SameCorpus(hub, a, collation) && SameCorpus(hub, b, collation)
    requires JudgeContractDifference(hub, a) == SAME && JudgeContractDifference(hub, b) == SAME
    ensures GroupDifference(a, b, collation) == SAME
  {
    SameInputsThroughHub(hub, a, b, collation);
    JudgesAgreeThroughHub(hub, a, b);
    hide SameInputs, JudgeContractDifference;
    GroupsAlike(a, b, collation);
  }

  // ---- session groups

  lemma SessionPairOfGroups(hub: Arm, a: Arm, b: Arm, collation: Collation)
    requires hub.group.mode == a.group.mode == b.group.mode == SessionMode
    requires hub.group.declaredStages == a.group.declaredStages == b.group.declaredStages
    requires SameInputs(hub, a, collation) && SameInputs(hub, b, collation)
    requires SameCorpus(hub, a, collation) && SameCorpus(hub, b, collation)
    requires SessionJudgeContract(a).Ok? && SessionJudgeContract(b).Ok?
    ensures GroupDifference(a, b, collation) == SAME <==> JudgeOf(a).None? || JudgeOf(b).None? || JudgeOf(a) == JudgeOf(b)
  {
    SameInputsThroughHub(hub, a, b, collation);
    SessionJudgesAgreeWhen(a, b);
    assert SameCorpus(a, b, collation);
    hide SameInputs, JudgeContractDifference, SessionJudgeContract, JudgeOf, ControlledInputDifference, SameCorpus;
    NoDifferenceMeans(a, b, collation);
  }

  lemma JudgedGroup(hub: Arm, other: Arm, collation: Collation)
    requires hub.group.mode == SessionMode && GroupDifference(hub, other, collation) == SAME
    ensures other.group.mode == SessionMode && hub.group.declaredStages == other.group.declaredStages
    ensures SessionJudgeContract(hub).Ok? && SessionJudgeContract(other).Ok?
    ensures SameInputs(hub, hub, collation) && SameInputs(hub, other, collation)
    ensures SameCorpus(hub, hub, collation) && SameCorpus(hub, other, collation)
  {
    GroupFacts(hub, other, collation);
  }

  /** Two groups of a merged session arm agree exactly when they do not carry two different judge contracts. */
  lemma SessionGroupsAgreeWhen(caseId: string, groups: seq<Arm>, collation: Collation, i: nat, j: nat)
    requires Accepted(caseId, groups, collation) && i < |groups| && j < |groups| && i != j
    requires groups[0].group.mode == SessionMode
    ensures GroupDifference(groups[i], groups[j], collation) == SAME <==>
      JudgeOf(groups[i]).None? || JudgeOf(groups[j]).None? || JudgeOf(groups[i]) == JudgeOf(groups[j])
  {
    hide GroupDifference, SameInputs, SameCorpus, JudgeContractKept, SessionJudgeContract, JudgeOf;
    var hub := groups[0];
    var k := if i == 0 then j else i;
    assert JoinsArm(caseId, groups, k, collation);
    JudgedGroup(hub, groups[k], collation);
    if i > 0 {
      assert JoinsArm(caseId, groups, i, collation);
      JudgedGroup(hub, groups[i], collation);
    }
    if j > 0 {
      assert JoinsArm(caseId, groups, j, collation);
      JudgedGroup(hub, groups[j], collation);
    }
    SessionPairOfGroups(hub, groups[i], groups[j], collation);
  }

  lemma {:induction false} JudgesConcat(a: seq<Rep>, b: seq<Rep>)
    ensures JudgesOf(a + b) == JudgesOf(a) + JudgesOf(b)
  {
    if a == [] {
      assert a + b == b;
    } else {
      assert (a + b)[1..] == a[1..] + b;
      JudgesConcat(a[1..], b);
    }
  }

  lemma {:induction false} ContractsConcat(a: seq<SessionJudge>, b: seq<SessionJudge>)
    ensures ContractsOf(a + b) == ContractsOf(a) + ContractsOf(b)
  {
    if a == [] {
      assert a + b == b;
    } else {
      assert (a + b)[1..] == a[1..] + b;
      ContractsConcat(a[1..], b);
    }
  }

  lemma {:induction false} GroupContractsKept(groups: seq<Arm>, i: nat, contract: string)
    requires i < |groups| && contract in ContractsOf(JudgesOf(groups[i].reps))
    ensures contract in ContractsOf(JudgesOf(AllReps(groups)))
  {
    JudgesConcat(groups[0].reps, AllReps(groups[1..]));
    ContractsConcat(JudgesOf(groups[0].reps), JudgesOf(AllReps(groups[1..])));
    if i > 0 {
      GroupContractsKept(groups[1..], i - 1, contract);
    }
  }

  /** The judge contract a session arm reports is the one contract of all its judged reps. */
  lemma OnlyContract(arm: Arm)
    requires SessionJudgeContract(arm).Ok?
    ensures forall contract :: contract in ContractsOf(JudgesOf(arm.reps)) <==> JudgeOf(arm) == Some(contract)
  {
    var contracts := ContractsOf(JudgesOf(arm.reps));
    DistinctElements(contracts);
    hide ContractsOf, JudgesOf, Distinct;
    assert forall contract :: contract in contracts <==> contract in Elements(Distinct(contracts));
  }

  lemma GroupJudgeIsTheArms(groups: seq<Arm>, merged: Arm, i: nat)
    requires i < |groups| && merged.reps == AllReps(groups)
    requires SessionJudgeContract(merged).Ok? && SessionJudgeContract(groups[i]).Ok?
    ensures JudgeOf(groups[i]).Some? ==> JudgeOf(groups[i]) == JudgeOf(merged)
  {
    OnlyContract(merged);
    OnlyContract(groups[i]);
    hide SessionJudgeContract, JudgeOf;
    if JudgeOf(groups[i]).Some? {
      GroupContractsKept(groups, i, JudgeOf(groups[i]).value);
    }
  }

  lemma AcceptedGroupJudged(caseId: string, groups: seq<Arm>, collation: Collation, i: nat)
    requires Accepted(caseId, groups, collation) && i < |groups| && |groups| > 1
    requires groups[0].group.mode == SessionMode
    ensures SessionJudgeContract(groups[i]).Ok?
  {
    hide GroupDifference, SameInputs, SameCorpus, JudgeContractKept, SessionJudgeContract;
    var k := if i == 0 then 1 else i;
    assert JoinsArm(caseId, groups, k, collation);
    JudgedGroup(groups[0], groups[k], collation);
  }

  /**
   * In an accepted session comparison the arm's one judge contract is its groups', so every two
   * groups of an arm agree there too.
   */
  lemma AcceptedSessionGroupsAgree(
    cases: seq<CaseEvidence>, collation: Collation, c: CaseEvidence, role: Role, groups: seq<Arm>, i: nat, j: nat)
    requires Comparable(cases, collation) && c in cases && cases[0].arms.baseline.group.mode == SessionMode
    requires Accepted(c.caseId, groups, collation) && c.arms.Of(role) == Merged(groups)
    requires i < |groups| && j < |groups| && i != j
    ensures GroupDifference(groups[i], groups[j], collation) == SAME
  {
    SessionArm(cases, collation, c, role);
    var merged := Merged(groups);
    assert groups[0].group.mode == SessionMode && merged.reps == AllReps(groups);
    hide *;
    AcceptedGroupJudged(c.caseId, groups, collation, i);
    AcceptedGroupJudged(c.caseId, groups, collation, j);
    GroupJudgeIsTheArms(groups, merged, i);
    GroupJudgeIsTheArms(groups, merged, j);
    SessionGroupsAgreeWhen(c.caseId, groups, collation, i, j);
  }

  // ---- the report's row

  datatype ReportRep = ReportRep(repId: string, ordinal: int, group: int)

  datatype ReportRow = ReportRow(role: Role, groupCount: nat, reps: seq<ReportRep>)

  function IdOf(group: GroupRecord): string {
    group.groupId
  }

  /** `ids.indexOf(id)` */
  function IndexOf(ids: seq<string>, id: string): int {
    if ids == [] then -1
    else if ids[0] == id then 0
    else
      var rest := IndexOf(ids[1..], id);
      if rest == -1 then -1 else rest + 1
  }

  function BuildReportArm(arm: Arm): ReportRow {
    var ids := Map(arm.groups, IdOf);
    ReportRow(
      arm.role, |arm.groups|,
      seq(|arm.reps|, i requires 0 <= i < |arm.reps| =>
        ReportRep(arm.reps[i].repId, i + 1, IndexOf(ids, arm.reps[i].groupId))))
  }

  function RepIdOf(rep: ReportRep): string {
    rep.repId
  }

  function OrdinalOf(rep: ReportRep): int {
    rep.ordinal
  }

  function GroupOf(rep: ReportRep): int {
    rep.group
  }

  function Counting(n: nat, from: int): seq<int> {
    seq(n, i requires 0 <= i < n => i + from)
  }

  predicate StepsBack(groups: seq<int>, i: nat)
    requires i < |groups|
  {
    groups[i] < if i == 0 then 0 else groups[i - 1]
  }

  /** The issues a validator that knows only the row raises against its reps. */
  function ValidateReps(row: ReportRow, reportReps: nat): seq<string> {
    var groups := Map(row.reps, GroupOf);
    (if |row.reps| != reportReps then ["rep count must match report reps"] else [])
    + (if |Distinct(Map(row.reps, RepIdOf))| != |row.reps| then ["rep IDs must be unique"] else [])
    + (if Map(row.reps, OrdinalOf) != Counting(|row.reps|, 1) then ["rep ordinals must cover report reps in order"] else [])
    + (if Distinct(groups) != Counting(row.groupCount, 0)
          || exists i :: 0 <= i < |groups| && StepsBack(groups, i)
       then ["reps must come from every named group, in order"] else [])
  }

  /** What loading gives: each group alone, with its reps carrying its id and one loaded rep per reference. */
  ghost predicate Loaded(groups: seq<Arm>) {
    forall i :: 0 <= i < |groups| ==>
      && groups[i].groups == [groups[i].group]
      && |groups[i].reps| == groups[i].group.repRecordCount
      && forall rep :: rep in groups[i].reps ==> rep.groupId == groups[i].group.groupId
  }

  function Copies(n: nat, value: int): seq<int> {
    seq(n, i requires 0 <= i < n => value)
  }

  /** Each group's number, once for each of its reps. */
  ghost function GroupNumbers(groups: seq<Arm>): seq<int> {
    if groups == [] then []
    else GroupNumbers(groups[..|groups| - 1]) + Copies(|groups[|groups| - 1].reps|, |groups| - 1)
  }

  ghost predicate DistinctGroups(groups: seq<Arm>) {
    forall i, j :: 0 <= i < j < |groups| ==> groups[i].group.groupId != groups[j].group.groupId
  }

  lemma {:induction false} IndexOfDistinct(ids: seq<string>, i: nat)
    requires NoRepeats(ids) && i < |ids|
    ensures IndexOf(ids, ids[i]) == i
  {
    if i > 0 {
      IndexOfDistinct(ids[1..], i - 1);
    }
  }

  /** The index of an id is its first, and -1 when it is not listed. */
  lemma {:induction false} IndexOfMeans(ids: seq<string>, id: string)
    ensures var i := IndexOf(ids, id);
      if id in ids then 0 <= i < |ids| && ids[i] == id && forall j :: 0 <= j < i ==> ids[j] != id else i == -1
  {
    if ids != [] {
      IndexOfMeans(ids[1..], id);
    }
  }

  lemma {:induction false} AllRepsSnoc(groups: seq<Arm>)
    requires groups != []
    ensures AllReps(groups) == AllReps(groups[..|groups| - 1]) + groups[|groups| - 1].reps
  {
    var n := |groups| - 1;
    if n == 0 {
      assert groups[1..] == [];
      assert groups[..0] == [];
    } else {
      var tail, last := groups[1..], groups[n].reps;
      AllRepsSnoc(tail);
      assert tail[..n - 1] == groups[..n][1..];
      var middle := AllReps(tail[..n - 1]);
      assert AllReps(groups[..n]) == groups[0].reps + middle;
      assert (groups[0].reps + middle) + last == groups[0].reps + (middle + last);
    }
  }

  lemma {:induction false} NumbersOfReps(groups: seq<Arm>, all: seq<Arm>)
    requires groups <= all && Loaded(all) && DistinctGroups(all)
    ensures |AllReps(groups)| == |GroupNumbers(groups)|
    ensures forall k :: 0 <= k < |AllReps(groups)| ==>
      IndexOf(Map(Map(all, RecordOf), IdOf), AllReps(groups)[k].groupId) == GroupNumbers(groups)[k]
  {
    if groups != [] {
      var n := |groups| - 1;
      var ids := Map(Map(all, RecordOf), IdOf);
      NumbersOfReps(groups[..n], all);
      AllRepsSnoc(groups);
      IndexOfDistinct(ids, n);
      forall rep | rep in groups[n].reps ensures IndexOf(ids, rep.groupId) == n {
        assert groups[n] == all[n];
      }
    }
  }

  lemma {:induction false} NumbersAscend(groups: seq<Arm>)
    ensures forall k :: 0 <= k < |GroupNumbers(groups)| ==> 0 <= GroupNumbers(groups)[k] < |groups|
    ensures forall k :: 1 <= k < |GroupNumbers(groups)| ==> GroupNumbers(groups)[k - 1] <= GroupNumbers(groups)[k]
  {
    if groups != [] {
      NumbersAscend(groups[..|groups| - 1]);
    }
  }

  lemma {:induction false} DistinctAppendCopies(s: seq<int>, n: nat, value: int)
    requires value !in s
    ensures Distinct(s + Copies(n, value)) == if n == 0 then Distinct(s) else Distinct(s) + [value]
  {
    if n == 0 {
      assert s + Copies(n, value) == s;
    } else {
      var shorter := s + Copies(n - 1, value);
      assert s + Copies(n, value) == shorter + [value];
      DistinctAppendCopies(s, n - 1, value);
      DistinctSnoc(shorter, value);
      hide Distinct;
      assert n > 1 ==> shorter[|shorter| - 1] == value;
      assert n == 1 ==> shorter == s;
    }
  }

  lemma CountingGrows(before: seq<int>, n: nat)
    requires n !in before
    ensures before != Counting(n + 1, 0)
    ensures before + [n] == Counting(n + 1, 0) <==> before == Counting(n, 0)
  {
    assert Counting(n + 1, 0) == Counting(n, 0) + [n];
    assert n in Counting(n, 0) + [n];
    if before + [n] == Counting(n + 1, 0) {
      assert before == (before + [n])[..|before|];
    }
  }

  predicate NoneEmpty(groups: seq<Arm>) {
    forall i :: 0 <= i < |groups| ==> groups[i].reps != []
  }

  lemma NoneEmptySnoc(front: seq<Arm>, last: Arm)
    ensures NoneEmpty(front + [last]) <==> NoneEmpty(front) && last.reps != []
  {
    if NoneEmpty(front + [last]) {
      assert forall i :: 0 <= i < |front| ==> front[i] == (front + [last])[i];
      assert (front + [last])[|front|] == last;
    }
  }

  lemma {:induction false} CoverByStep(groups: seq<Arm>)
    ensures Distinct(GroupNumbers(groups)) == Counting(|groups|, 0) <==> NoneEmpty(groups)
  {
    if groups != [] {
      var n := |groups| - 1;
      var front, last := groups[..n], groups[n];
      assert groups == front + [last];
      NumbersAscend(front);
      assert n !in GroupNumbers(front);
      assert GroupNumbers(groups) == GroupNumbers(front) + Copies(|last.reps|, n);
      hide Distinct, Counting, GroupNumbers, Copies, NoneEmpty;
      CoverByStep(front);
      DistinctAppendCopies(GroupNumbers(front), |last.reps|, n);
      NotAmongDistinct(GroupNumbers(front), n);
      CountingGrows(Distinct(GroupNumbers(front)), n);
      NoneEmptySnoc(front, last);
    }
  }

  lemma NotAmongDistinct(s: seq<int>, n: int)
    requires n !in s
    ensures n !in Distinct(s)
  {
    DistinctElements(s);
    assert n !in Elements(Distinct(s));
  }

  lemma NumbersCover(groups: seq<Arm>)
    ensures Distinct(GroupNumbers(groups)) == Counting(|groups|, 0) <==> forall i :: 0 <= i < |groups| ==> groups[i].reps != []
  {
    hide Distinct, Counting, GroupNumbers;
    CoverByStep(groups);
  }

  ghost function MergedRow(groups: seq<Arm>): ReportRow
    requires groups != []
  {
    BuildReportArm(Merged(groups))
  }

  lemma MergedParts(groups: seq<Arm>)
    requires groups != [] && Loaded(groups)
    ensures Merged(groups).groups == Map(groups, RecordOf) && Merged(groups).reps == AllReps(groups)
  {
    if |groups| == 1 {
      assert AllReps(groups) == groups[0].reps + AllReps(groups[1..]);
      assert AllReps(groups[1..]) == [];
      assert Map(groups, RecordOf) == [groups[0].group];
    }
  }

  lemma RowNumbers(groups: seq<Arm>)
    requires groups != [] && Loaded(groups) && DistinctGroups(groups)
    ensures var row := MergedRow(groups);
      && row.groupCount == |groups| && |row.reps| == |AllReps(groups)|
      && Map(row.reps, GroupOf) == GroupNumbers(groups)
      && Map(row.reps, OrdinalOf) == Counting(|row.reps|, 1)
      && forall i :: 0 <= i < |row.reps| ==> row.reps[i].repId == AllReps(groups)[i].repId
  {
    MergedParts(groups);
    NumbersOfReps(groups, groups);
  }

  ghost predicate UniqueRepIds(reps: seq<Rep>) {
    forall i, j :: 0 <= i < j < |reps| ==> reps[i].repId != reps[j].repId
  }

  /**
   * The row built from merged groups passes the report's own checks exactly when the rep count
   * is the report's, no two reps share an id, and no group is empty.
   */
  lemma ProducerMeetsValidator(groups: seq<Arm>, reportReps: nat)
    requires groups != [] && Loaded(groups) && DistinctGroups(groups)
    ensures ValidateReps(MergedRow(groups), reportReps) == [] <==>
      && |AllReps(groups)| == reportReps
      && UniqueRepIds(AllReps(groups))
      && forall i :: 0 <= i < |groups| ==> groups[i].reps != []
  {
    var row := MergedRow(groups);
    RowNumbers(groups);
    NumbersCover(groups);
    NumbersAscend(groups);
    NoIssues(row, reportReps);
    UniqueIdsCounted(row, AllReps(groups));
    hide MergedRow, GroupNumbers, AllReps, ValidateReps;
    var numbers := Map(row.reps, GroupOf);
    assert forall i :: 0 <= i < |numbers| ==> !StepsBack(numbers, i);
  }

  lemma NoIssues(row: ReportRow, reportReps: nat)
    ensures var groups := Map(row.reps, GroupOf);
      ValidateReps(row, reportReps) == [] <==>
        && |row.reps| == reportReps
        && |Distinct(Map(row.reps, RepIdOf))| == |row.reps|
        && Map(row.reps, OrdinalOf) == Counting(|row.reps|, 1)
        && Distinct(groups) == Counting(row.groupCount, 0)
        && forall i :: 0 <= i < |groups| ==> !StepsBack(groups, i)
  {
    hide Distinct, Counting, StepsBack;
  }

  ghost predicate NeverBack(groups: seq<int>) {
    (forall i :: 0 <= i < |groups| ==> groups[i] >= 0) && forall i, j :: 0 <= i < j < |groups| ==> groups[i] <= groups[j]
  }

  ghost predicate Rising(numbers: seq<int>) {
    forall i, j :: 0 <= i < j < |numbers| ==> numbers[i] < numbers[j]
  }

  lemma {:induction false} NeverBackByStep(groups: seq<int>)
    ensures (forall i :: 0 <= i < |groups| ==> !StepsBack(groups, i)) <==> NeverBack(groups)
  {
    if groups != [] {
      var n := |groups| - 1;
      var front := groups[..n];
      NeverBackByStep(front);
      assert forall i :: 0 <= i < n ==> (StepsBack(front, i) <==> StepsBack(groups, i));
      if NeverBack(front) && !StepsBack(groups, n) {
        assert n > 0 ==> front[n - 1] == groups[n - 1];
        forall i, j | 0 <= i < j < |groups| ensures groups[i] <= groups[j] {
          assert front[i] == groups[i];
        }
      }
      if NeverBack(groups) {
        assert NeverBack(front);
      }
    }
  }

  lemma {:induction false} DistinctRises(groups: seq<int>)
    requires NeverBack(groups)
    ensures Rising(Distinct(groups))
  {
    if groups != [] {
      var n := |groups| - 1;
      DistinctRises(groups[..n]);
      DistinctElements(groups[..n]);
      var before := Distinct(groups[..n]);
      forall i | 0 <= i < |before| && groups[n] !in before ensures before[i] < groups[n] {
        assert before[i] in Elements(before);
        assert before[i] in groups[..n];
      }
    }
  }

  lemma SomethingIn(numbers: seq<int>)
    ensures numbers == [] || exists g :: g in numbers
  {
    if numbers != [] {
      var first := numbers[0];
      assert first in numbers;
    }
  }

  lemma {:induction false} RisingThrough(numbers: seq<int>, n: nat)
    requires Rising(numbers)
    requires forall g :: g in numbers <==> 0 <= g < n
    ensures numbers == Counting(n, 0)
  {
    if n == 0 {
      SomethingIn(numbers);
    } else {
      assert n - 1 in numbers;
      var k :| 0 <= k < |numbers| && numbers[k] == n - 1;
      var last := |numbers| - 1;
      assert numbers[last] in numbers;
      assert k == last;
      var front := numbers[..last];
      forall g ensures g in front <==> 0 <= g < n - 1 {
        if g in front {
          var i :| 0 <= i < last && front[i] == g;
          assert numbers[i] in numbers && numbers[i] < numbers[last];
        }
        if 0 <= g < n - 1 {
          assert g in numbers;
          var i :| 0 <= i < |numbers| && numbers[i] == g;
          assert front[i] == g;
        }
      }
      RisingThrough(front, n - 1);
      assert numbers == front + [n - 1];
      assert Counting(n, 0) == Counting(n - 1, 0) + [n - 1];
    }
  }

  /** Every named group has a rep, no other has, and none comes after a later one's. */
  ghost predicate CoverInOrder(groups: seq<int>, n: nat) {
    (forall g :: g in groups <==> 0 <= g < n) && forall i, j :: 0 <= i < j < |groups| ==> groups[i] <= groups[j]
  }

  lemma CoverMeans(groups: seq<int>, n: nat)
    ensures Distinct(groups) == Counting(n, 0) && (forall i :: 0 <= i < |groups| ==> !StepsBack(groups, i)) <==>
      CoverInOrder(groups, n)
  {
    NeverBackByStep(groups);
    DistinctElements(groups);
    assert forall g :: g in groups <==> g in Elements(groups);
    assert forall g :: g in Distinct(groups) <==> g in Elements(Distinct(groups));
    hide Distinct, StepsBack;
    if Distinct(groups) == Counting(n, 0) && NeverBack(groups) {
      forall g ensures g in Counting(n, 0) <==> 0 <= g < n {
        if 0 <= g < n {
          assert Counting(n, 0)[g] == g;
        }
      }
    }
    if CoverInOrder(groups, n) {
      forall i | 0 <= i < |groups| ensures groups[i] >= 0 {
        assert groups[i] in groups;
      }
      DistinctRises(groups);
      RisingThrough(Distinct(groups), n);
    }
  }

  /**
   * The validator passes any row exactly when it has as many reps as the report, no two of one id,
   * numbered from 1 in order, and every named group has a rep, in the order the groups are named.
   */
  lemma ValidatorPassesWhen(row: ReportRow, reportReps: nat)
    ensures ValidateReps(row, reportReps) == [] <==>
      && |row.reps| == reportReps
      && (forall i, j :: 0 <= i < j < |row.reps| ==> row.reps[i].repId != row.reps[j].repId)
      && (forall i :: 0 <= i < |row.reps| ==> row.reps[i].ordinal == i + 1)
      && CoverInOrder(Map(row.reps, GroupOf), row.groupCount)
  {
    NoIssues(row, reportReps);
    DistinctShorter(Map(row.reps, RepIdOf));
    CoverMeans(Map(row.reps, GroupOf), row.groupCount);
    hide Distinct, ValidateReps, StepsBack, CoverInOrder;
    OrdinalsMean(row);
    assert NoRepeats(Map(row.reps, RepIdOf)) <==>
      forall i, j :: 0 <= i < j < |row.reps| ==> row.reps[i].repId != row.reps[j].repId;
  }

  lemma OrdinalsMean(row: ReportRow)
    ensures Map(row.reps, OrdinalOf) == Counting(|row.reps|, 1) <==>
      forall i :: 0 <= i < |row.reps| ==> row.reps[i].ordinal == i + 1
  {
    var ordinals := Map(row.reps, OrdinalOf);
    if ordinals == Counting(|row.reps|, 1) {
      forall i | 0 <= i < |row.reps| ensures row.reps[i].ordinal == i + 1 {
        assert ordinals[i] == Counting(|row.reps|, 1)[i];
      }
    }
  }

  lemma UniqueIdsCounted(row: ReportRow, reps: seq<Rep>)
    requires |row.reps| == |reps| && forall i :: 0 <= i < |reps| ==> row.reps[i].repId == reps[i].repId
    ensures |Distinct(Map(row.reps, RepIdOf))| == |row.reps| <==> UniqueRepIds(reps)
  {
    var ids := Map(row.reps, RepIdOf);
    DistinctShorter(ids);
    hide Distinct;
    assert forall i :: 0 <= i < |ids| ==> ids[i] == reps[i].repId;
  }

  lemma {:induction false} RepsAddUp(groups: seq<Arm>)
    requires Loaded(groups)
    requires forall i :: 0 <= i < |groups| ==> groups[i].group.repRecordCount == groups[i].group.reps
    ensures |AllReps(groups)| == ArmReps(Map(groups, RecordOf))
  {
    if groups != [] {
      RepsAddUp(groups[1..]);
      assert Map(groups, RecordOf)[1..] == Map(groups[1..], RecordOf);
    }
  }

  /** A merged arm's groups have distinct ids. */
  lemma AcceptedGroupsDistinct(caseId: string, groups: seq<Arm>, collation: Collation)
    requires Accepted(caseId, groups, collation)
    ensures DistinctGroups(groups)
  {
    forall i, j | 0 <= i < j < |groups| ensures groups[i].group.groupId != groups[j].group.groupId {
      assert JoinsArm(caseId, groups, j, collation);
    }
  }

  /**
   * Every arm of an accepted comparison, merged from groups that each recorded a rep, passes the
   * report's checks against the one contract of the comparison.
   */
  lemma AcceptedArmPasses(
    cases: seq<CaseEvidence>, collation: Collation, c: CaseEvidence, role: Role, groups: seq<Arm>)
    requires Comparable(cases, collation) && c in cases
    requires Accepted(c.caseId, groups, collation) && c.arms.Of(role) == Merged(groups) && Loaded(groups)
    requires UniqueRepIds(AllReps(groups))
    requires forall i :: 0 <= i < |groups| ==> groups[i].group.reps >= 1
    ensures ValidateReps(BuildReportArm(c.arms.Of(role)), ArmReps(cases[0].arms.baseline.groups)) == []
  {
    hide JoinsArm, ValidateReps, BuildReportArm, SameCorpus, CaseAccepted;
    HubFacts(cases, collation, c, role);
    AcceptedGroupsDistinct(c.caseId, groups, collation);
    MergedParts(groups);
    AcceptedRepCounts(cases, collation, c, role);
    forall i | 0 <= i < |groups|
      ensures groups[i].group.repRecordCount == groups[i].group.reps && groups[i].reps != []
    {
      assert Merged(groups).groups[i] == groups[i].group;
      assert groups[i].group in Merged(groups).groups;
    }
    RepsAddUp(groups);
    ProducerMeetsValidator(groups, ArmReps(cases[0].arms.baseline.groups));
  }

  lemma AcceptedRepCounts(cases: seq<CaseEvidence>, collation: Collation, c: CaseEvidence, role: Role)
    requires Comparable(cases, collation) && c in cases
    ensures ExpectedRepCount(c.arms.Of(role))
    ensures ArmReps(c.arms.Of(role).groups) == ArmReps(cases[0].arms.baseline.groups)
  {
    EveryRole(role);
    assert ArmAccepted(c.caseId, c.arms.Of(role), cases[0].arms.baseline);
  }

  // ---- groups as they are recorded

  lemma DigitTells(a: nat, b: nat)
    requires a < 10 && b < 10 && DIGITS[a] == DIGITS[b]
    ensures a == b
  {
    forall i, j | 0 <= i < j < 10 ensures DIGITS[i] != DIGITS[j] {
    }
  }

  lemma {:induction false} DecimalShape(n: nat)
    ensures Decimal(n) != "" && '-' !in Decimal(n)
    ensures |Decimal(n)| == 1 <==> n < 10
  {
    if n >= 10 {
      DecimalShape(n / 10);
    }
  }

  lemma {:induction false} DecimalTells(a: nat, b: nat)
    requires Decimal(a) == Decimal(b)
    ensures a == b
  {
    DecimalShape(a);
    DecimalShape(b);
    var n := |Decimal(a)| - 1;
    assert Decimal(a)[n] == DIGITS[a % 10] && Decimal(b)[n] == DIGITS[b % 10];
    DigitTells(a % 10, b % 10);
    if a >= 10 {
      assert Decimal(a)[..n] == Decimal(a / 10) && Decimal(b)[..n] == Decimal(b / 10);
      DecimalTells(a / 10, b / 10);
    }
  }

  /** Text without a hyphen after a hyphen is not longer than what else could stand there. */
  lemma NotLonger(a: string, d: string, b: string, e: string)
    requires a + "-" + d == b + "-" + e && '-' !in e
    ensures |e| <= |d|
  {
    var x := a + "-" + d;
    assert x[|a|] == '-';
    forall k | |b| + 1 <= k < |x| ensures x[k] != '-' {
      assert x[k] == e[k - |b| - 1];
    }
  }

  lemma RepNamesTell(g: string, i: nat, h: string, j: nat)
    requires RepName(g, i) == RepName(h, j)
    ensures g == h && i == j
  {
    var a, b, d, e := g + "-rep", h + "-rep", Decimal(i), Decimal(j);
    DecimalShape(i);
    DecimalShape(j);
    NotLonger(a, d, b, e);
    NotLonger(b, e, a, d);
    hide Decimal;
    var x := RepName(g, i);
    assert x == a + "-" + d == b + "-" + e;
    assert |a| == |b|;
    assert a == x[..|a|] == b;
    assert d == x[|a| + 1..] == e;
    assert g == a[..|g|] == h;
    DecimalTells(i, j);
  }

  lemma {:induction false} RepOfSomeGroup(groups: seq<Arm>, rep: Rep)
    requires Loaded(groups) && rep in AllReps(groups) && forall g :: g in groups ==> AsRecorded(g)
    ensures exists k :: 0 <= k < |groups| && rep.groupId == groups[k].group.groupId
    ensures exists n: nat :: rep.repId == RepName(rep.groupId, n)
  {
    var first := groups[0];
    if rep in first.reps {
      var i :| 0 <= i < |first.reps| && first.reps[i] == rep;
      assert AsRecorded(first);
      assert rep.repId == RepName(rep.groupId, i + 1);
    } else {
      RepOfSomeGroup(groups[1..], rep);
      var k :| 0 <= k < |groups[1..]| && rep.groupId == groups[1..][k].group.groupId;
      assert rep.groupId == groups[k + 1].group.groupId;
    }
  }

  /** Reps named as the records name them have ids of their own, across the groups of an arm too. */
  lemma {:induction false} RecordedIdsUnique(groups: seq<Arm>)
    requires Loaded(groups) && DistinctGroups(groups) && forall g :: g in groups ==> AsRecorded(g)
    ensures UniqueRepIds(AllReps(groups))
  {
    if groups != [] {
      var n := |groups| - 1;
      var front, last := groups[..n], groups[n];
      RecordedIdsUnique(front);
      assert AsRecorded(last);
      AllRepsSnoc(groups);
      var before := AllReps(front);
      hide AllReps, RepName;
      forall i | 0 <= i < |before|
        ensures forall j :: 0 <= j < |last.reps| ==> before[i].repId != last.reps[j].repId
      {
        RepOfSomeGroup(front, before[i]);
        OtherGroup(before[i], groups, n);
      }
      forall i, j | 0 <= i < j < |last.reps| ensures last.reps[i].repId != last.reps[j].repId {
        if last.reps[i].repId == last.reps[j].repId {
          RepNamesTell(last.group.groupId, i + 1, last.group.groupId, j + 1);
        }
      }
    }
  }

  lemma OtherGroup(rep: Rep, groups: seq<Arm>, n: nat)
    requires n < |groups| && AsRecorded(groups[n]) && DistinctGroups(groups)
    requires exists k :: 0 <= k < n && rep.groupId == groups[..n][k].group.groupId
    requires exists m: nat :: rep.repId == RepName(rep.groupId, m)
    ensures forall j :: 0 <= j < |groups[n].reps| ==> rep.repId != groups[n].reps[j].repId
  {
    hide RepName;
    var m: nat :| rep.repId == RepName(rep.groupId, m);
    forall j | 0 <= j < |groups[n].reps| ensures rep.repId != groups[n].reps[j].repId {
      if rep.repId == groups[n].reps[j].repId {
        RepNamesTell(rep.groupId, m, groups[n].group.groupId, j + 1);
      }
    }
  }

  /**
   * Every arm of an accepted comparison, merged from groups as their records' schema demands them,
   * passes the report's checks against the one contract of the comparison.
   */
  lemma RecordedArmPasses(
    cases: seq<CaseEvidence>, collation: Collation, c: CaseEvidence, role: Role, groups: seq<Arm>)
    requires Comparable(cases, collation) && c in cases
    requires Accepted(c.caseId, groups, collation) && c.arms.Of(role) == Merged(groups) && Loaded(groups)
    requires forall g :: g in groups ==> AsRecorded(g)
    ensures ValidateReps(BuildReportArm(c.arms.Of(role)), ArmReps(cases[0].arms.baseline.groups)) == []
  {
    AcceptedGroupsDistinct(c.caseId, groups, collation);
    RecordedIdsUnique(groups);
    assert forall i :: 0 <= i < |groups| ==> AsRecorded(groups[i]);
    hide Comparable, Accepted, Merged, Loaded, BuildReportArm, ValidateReps, UniqueRepIds, DistinctGroups;
    AcceptedArmPasses(cases, collation, c, role, groups);
  }
}
