/** Where a comparison's arms ran with different inherited configuration, or cannot say. */
module InheritedConfiguration {
  import opened Wrappers
  import opened Collections
  import opened Ordering
  import opened ComparisonEvidence
  import opened JsonText

  datatype Variable = Variable(name: string, sha256: Option<string>)

  type Variables = seq<Variable>

  /** What a record says its session inherited; `None` when it predates recording it. */
  type Recorded = Option<Variables>

  datatype Differing = DifferentValue(name: string) | OnlyIn(name: string, arm: Role)

  datatype Finding =
    | Unrecorded(arms: seq<Role>)
    | Mixed(arm: Role, names: seq<string>, unrecorded: bool)
    | Differs(left: Role, right: Role, variables: seq<Differing>)

  datatype ArmConfiguration = ArmConfiguration(configurations: seq<Variables>, unrecorded: bool)

  datatype Records = Records(baseline: seq<Recorded>, candidate: seq<Recorded>, control: seq<Recorded>) {
    function Of(role: Role): seq<Recorded> {
      match role
      case Baseline => baseline
      case Candidate => candidate
      case Control => control
    }
  }

  const ABSENT := "absent"

  /** `new Map(variables.map(({name, sha256}) => [name, sha256]))` */
  function Digests(variables: Variables): map<string, Option<string>> {
    if variables == [] then map[]
    else
      var last := variables[|variables| - 1];
      Digests(variables[..|variables| - 1])[last.name := last.sha256]
  }

  function ValueOf(variables: Variables, name: string): string {
    var digests := Digests(variables);
    if name !in digests then ABSENT
    else "inherited:" + if digests[name].Some? then digests[name].value else ""
  }

  function ValuesOf(configurations: seq<Variables>, name: string): set<string> {
    set each | each in configurations :: ValueOf(each, name)
  }

  predicate SameValues(left: set<string>, right: set<string>) {
    |left| == |right| && left <= right
  }

  predicate OnlyAbsent(values: set<string>) {
    |values| == 1 && ABSENT in values
  }

  function AllNames(configurations: seq<Variables>): seq<string> {
    if configurations == [] then []
    else
      Map(configurations[0], (v: Variable) => v.name) + AllNames(configurations[1..])
  }

  function NamesIn(configurations: seq<Variables>): seq<string> {
    SortStrings(Distinct(AllNames(configurations)))
  }

  function NamesThatDiffer(configurations: seq<Variables>, names: seq<string>): seq<string> {
    if names == [] then []
    else
      (if |ValuesOf(configurations, names[0])| > 1 then [names[0]] else []) + NamesThatDiffer(configurations, names[1..])
  }

  function RecordedOnes(records: seq<Recorded>): seq<Variables> {
    if records == [] then []
    else (if records[0].Some? then [records[0].value] else []) + RecordedOnes(records[1..])
  }

  /** A configuration's names with their digests, as a Map keeps them. */
  function EntriesOf(variables: Variables): seq<Entry> {
    var digests := Digests(variables);
    Map(Distinct(Map(variables, (v: Variable) => v.name)),
        (name: string) => (name, if name in digests then digests[name] else None))
  }

  function InsertEntry(entry: Entry, sorted: seq<Entry>, collation: Collation): seq<Entry> {
    if sorted == [] then [entry]
    else if collation(entry.0, sorted[0].0) then [entry] + sorted
    else [sorted[0]] + InsertEntry(entry, sorted[1..], collation)
  }

  function SortedEntries(entries: seq<Entry>, collation: Collation): seq<Entry> {
    if entries == [] then [] else InsertEntry(entries[0], SortedEntries(entries[1..], collation), collation)
  }

  /** One text for a configuration, whatever order its variables were recorded in. */
  function Canonical(variables: Variables, collation: Collation): string {
    ListText(SortedEntries(EntriesOf(variables), collation))
  }

  function KeyBy(collation: Collation): Variables -> string {
    (variables: Variables) => Canonical(variables, collation)
  }

  /** The last configuration with a key, as a Map keeps it. */
  function LastWith(recorded: seq<Variables>, key: string, collation: Collation): Variables {
    if recorded == [] then []
    else if Canonical(recorded[|recorded| - 1], collation) == key then recorded[|recorded| - 1]
    else LastWith(recorded[..|recorded| - 1], key, collation)
  }

  function DistinctConfigurations(recorded: seq<Variables>, collation: Collation): seq<Variables> {
    Map(Distinct(Map(recorded, KeyBy(collation))), (key: string) => LastWith(recorded, key, collation))
  }

  function ArmConfigurationOf(records: seq<Recorded>, collation: Collation): ArmConfiguration {
    var recorded := RecordedOnes(records);
    ArmConfiguration(DistinctConfigurations(recorded, collation), |recorded| < |records|)
  }

  function MixedFinding(arm: Role, c: ArmConfiguration): seq<Finding> {
    var names := NamesThatDiffer(c.configurations, NamesIn(c.configurations));
    if names != [] || (c.unrecorded && c.configurations != []) then [Mixed(arm, names, c.unrecorded)] else []
  }

  function DifferingVariables(
    leftArm: Role, rightArm: Role, left: seq<Variables>, right: seq<Variables>, names: seq<string>): seq<Differing>
  {
    if names == [] then []
    else
      var name := names[0];
      var l, r := ValuesOf(left, name), ValuesOf(right, name);
      (if SameValues(l, r) then []
       else if OnlyAbsent(r) then [OnlyIn(name, leftArm)]
       else if OnlyAbsent(l) then [OnlyIn(name, rightArm)]
       else [DifferentValue(name)])
      + DifferingVariables(leftArm, rightArm, left, right, names[1..])
  }

  function PairFinding(leftArm: Role, rightArm: Role, left: ArmConfiguration, right: ArmConfiguration): seq<Finding> {
    if left.configurations == [] || right.configurations == [] then []
    else
      var variables := DifferingVariables(
        leftArm, rightArm, left.configurations, right.configurations,
        NamesIn(left.configurations + right.configurations));
      if variables == [] then [] else [Differs(leftArm, rightArm, variables)]
  }

  function UnrecordedArms(roles: seq<Role>, records: Records, collation: Collation): seq<Role> {
    if roles == [] then []
    else
      (if ArmConfigurationOf(records.Of(roles[0]), collation).configurations == [] then [roles[0]] else [])
      + UnrecordedArms(roles[1..], records, collation)
  }

  function Findings(records: Records, collation: Collation): seq<Finding> {
    var baseline := ArmConfigurationOf(records.baseline, collation);
    var candidate := ArmConfigurationOf(records.candidate, collation);
    var control := ArmConfigurationOf(records.control, collation);
    var unrecorded := UnrecordedArms([Baseline, Candidate, Control], records, collation);
    (if unrecorded == [] then [] else [Unrecorded(unrecorded)])
    + MixedFinding(Baseline, baseline) + MixedFinding(Candidate, candidate) + MixedFinding(Control, control)
    + PairFinding(Candidate, Baseline, candidate, baseline)
    + PairFinding(Baseline, Control, baseline, control)
    + PairFinding(Candidate, Control, candidate, control)
  }

  // ---- what the findings mean

  /** Two configurations read alike: every name has the same value in both. */
  ghost predicate Alike(a: Variables, b: Variables) {
    forall name :: ValueOf(a, name) == ValueOf(b, name)
  }

  ghost predicate AllAlike(configurations: seq<Variables>) {
    forall a, b :: a in configurations && b in configurations ==> Alike(a, b)
  }

  lemma {:induction false} DigestsKeys(variables: Variables)
    ensures forall name :: name in Digests(variables) <==> exists i :: 0 <= i < |variables| && variables[i].name == name
  {
    if variables != [] {
      var n := |variables| - 1;
      DigestsKeys(variables[..n]);
      forall name ensures name in Digests(variables) <==> exists i :: 0 <= i < |variables| && variables[i].name == name {
        if name in Digests(variables[..n]) {
          var i :| 0 <= i < n && variables[..n][i].name == name;
          assert variables[i].name == name;
        }
        if i :| 0 <= i < |variables| && variables[i].name == name {
          assert i == n || variables[..n][i].name == name;
        }
      }
    }
  }

  lemma {:induction false} AllNamesListed(configurations: seq<Variables>, each: Variables, name: string)
    requires each in configurations && name in Digests(each)
    ensures name in AllNames(configurations)
  {
    if each == configurations[0] {
      DigestsKeys(each);
      var i :| 0 <= i < |each| && each[i].name == name;
      assert Map(each, (v: Variable) => v.name)[i] == name;
    } else {
      AllNamesListed(configurations[1..], each, name);
    }
  }

  lemma NamesInListed(configurations: seq<Variables>, each: Variables, name: string)
    requires each in configurations && name in Digests(each)
    ensures name in NamesIn(configurations)
  {
    AllNamesListed(configurations, each, name);
    DistinctElements(AllNames(configurations));
    SortKeeps(Distinct(AllNames(configurations)));
    assert name in Elements(NamesIn(configurations));
  }

  lemma OneElement(s: set<string>, x: string, y: string)
    requires x in s && y in s
    ensures x != y ==> |s| >= 2
  {
    if x != y {
      assert y in s - {x};
      assert |s - {x}| == |s| - 1;
    }
  }

  lemma {:induction false} NoNameDiffers(configurations: seq<Variables>, names: seq<string>)
    ensures NamesThatDiffer(configurations, names) == [] <==> forall name :: name in names ==> |ValuesOf(configurations, name)| <= 1
  {
    if names != [] {
      NoNameDiffers(configurations, names[1..]);
      assert names == [names[0]] + names[1..];
    }
  }

  lemma AlikeMeansOneValue(configurations: seq<Variables>, name: string)
    requires AllAlike(configurations)
    ensures |ValuesOf(configurations, name)| <= 1
  {
    if configurations == [] {
      assert ValuesOf(configurations, name) == {};
    } else {
      var first := configurations[0];
      forall each | each in configurations ensures ValueOf(each, name) == ValueOf(first, name) {
        assert Alike(each, first);
      }
      assert ValuesOf(configurations, name) == {ValueOf(first, name)};
    }
  }

  /** An arm is not mixed exactly when its configurations read alike and none is missing beside others. */
  lemma NotMixedMeans(arm: Role, c: ArmConfiguration)
    ensures MixedFinding(arm, c) == [] <==> AllAlike(c.configurations) && !(c.unrecorded && c.configurations != [])
  {
    var names := NamesIn(c.configurations);
    NoNameDiffers(c.configurations, names);
    if NamesThatDiffer(c.configurations, names) == [] {
      forall a, b | a in c.configurations && b in c.configurations ensures Alike(a, b) {
        forall name ensures ValueOf(a, name) == ValueOf(b, name) {
          if name in Digests(a) {
            NamesInListed(c.configurations, a, name);
          }
          if name in Digests(b) {
            NamesInListed(c.configurations, b, name);
          }
          if name in names {
            OneElement(ValuesOf(c.configurations, name), ValueOf(a, name), ValueOf(b, name));
          }
        }
      }
    }
    if AllAlike(c.configurations) {
      forall name | name in names ensures |ValuesOf(c.configurations, name)| <= 1 {
        AlikeMeansOneValue(c.configurations, name);
      }
    }
  }

  /** Comparing sizes and one inclusion is comparing the sets. */
  lemma SameValuesMeans(left: set<string>, right: set<string>)
    ensures SameValues(left, right) <==> left == right
  {
    if left <= right && left != right {
      var x :| x in right && x !in left;
      SubsetSize(left, right - {x});
    }
  }

  lemma {:induction false} NothingDiffers(l: Role, r: Role, left: seq<Variables>, right: seq<Variables>, names: seq<string>)
    ensures DifferingVariables(l, r, left, right, names) == [] <==>
      forall name :: name in names ==> ValuesOf(left, name) == ValuesOf(right, name)
  {
    if names != [] {
      NothingDiffers(l, r, left, right, names[1..]);
      SameValuesMeans(ValuesOf(left, names[0]), ValuesOf(right, names[0]));
      hide ValuesOf, SameValues, OnlyAbsent;
      assert names == [names[0]] + names[1..];
    }
  }

  /** Two arms, each alike within itself, show no difference exactly when they are alike together. */
  lemma NoPairDifferenceMeans(l: Role, r: Role, left: ArmConfiguration, right: ArmConfiguration)
    requires left.configurations != [] && right.configurations != []
    requires AllAlike(left.configurations) && AllAlike(right.configurations)
    ensures PairFinding(l, r, left, right) == [] <==> AllAlike(left.configurations + right.configurations)
  {
    var a, b := left.configurations, right.configurations;
    var names := NamesIn(a + b);
    NothingDiffers(l, r, a, b, names);
    forall name ensures ValuesOf(a, name) == {ValueOf(a[0], name)} && ValuesOf(b, name) == {ValueOf(b[0], name)} {
      SingleValue(a, name);
      SingleValue(b, name);
    }
    if forall name :: name in names ==> ValuesOf(a, name) == ValuesOf(b, name) {
      forall name ensures ValueOf(a[0], name) == ValueOf(b[0], name) {
        if name in Digests(a[0]) {
          NamesInListed(a + b, a[0], name);
        }
        if name in Digests(b[0]) {
          NamesInListed(a + b, b[0], name);
        }
        if name in names {
          assert ValueOf(a[0], name) in ValuesOf(b, name);
        }
      }
      AlikeTogether(a, b);
    }
    if AllAlike(a + b) {
      assert a[0] in a + b && b[0] in a + b;
      assert Alike(a[0], b[0]);
    }
  }

  lemma SingleValue(configurations: seq<Variables>, name: string)
    requires configurations != [] && AllAlike(configurations)
    ensures ValuesOf(configurations, name) == {ValueOf(configurations[0], name)}
  {
    forall each | each in configurations ensures ValueOf(each, name) == ValueOf(configurations[0], name) {
      assert Alike(each, configurations[0]);
    }
  }

  lemma AlikeTogether(a: seq<Variables>, b: seq<Variables>)
    requires a != [] && b != [] && AllAlike(a) && AllAlike(b) && Alike(a[0], b[0])
    ensures AllAlike(a + b)
  {
    forall x, y | x in a + b && y in a + b ensures Alike(x, y) {
      forall name ensures ValueOf(x, name) == ValueOf(y, name) {
        assert ValueOf(x, name) == ValueOf(a[0], name) by {
          assert if x in a then Alike(x, a[0]) else Alike(x, b[0]);
        }
        assert ValueOf(y, name) == ValueOf(a[0], name) by {
          assert if y in a then Alike(y, a[0]) else Alike(y, b[0]);
        }
      }
    }
  }

  lemma {:induction false} InsertEntryKeeps(entry: Entry, sorted: seq<Entry>, collation: Collation)
    ensures multiset(InsertEntry(entry, sorted, collation)) == multiset{entry} + multiset(sorted)
  {
    if sorted != [] && !collation(entry.0, sorted[0].0) {
      InsertEntryKeeps(entry, sorted[1..], collation);
      assert sorted == [sorted[0]] + sorted[1..];
    }
  }

  lemma {:induction false} SortedEntriesKeep(entries: seq<Entry>, collation: Collation)
    ensures multiset(SortedEntries(entries, collation)) == multiset(entries)
  {
    if entries != [] {
      SortedEntriesKeep(entries[1..], collation);
      InsertEntryKeeps(entries[0], SortedEntries(entries[1..], collation), collation);
      assert entries == [entries[0]] + entries[1..];
    }
  }

  lemma EntriesTell(variables: Variables)
    ensures forall name, value :: (name, value) in EntriesOf(variables) <==>
      name in Digests(variables) && Digests(variables)[name] == value
  {
    var digests, entries := Digests(variables), EntriesOf(variables);
    var all := Map(variables, (v: Variable) => v.name);
    var names := Distinct(all);
    DigestsKeys(variables);
    DistinctElements(all);
    assert |entries| == |names| && forall k :: 0 <= k < |names| ==>
      entries[k] == (names[k], if names[k] in digests then digests[names[k]] else None);
    forall name ensures name in digests <==> name in names {
      assert name in names <==> name in Elements(names);
      assert name in all <==> name in Elements(all);
      if name in digests {
        var i :| 0 <= i < |variables| && variables[i].name == name;
        assert all[i] == name;
      }
      if name in all {
        var i :| 0 <= i < |all| && all[i] == name;
        assert variables[i].name == name;
      }
    }
    forall name, value | name in digests && digests[name] == value ensures (name, value) in entries {
      var k :| 0 <= k < |names| && names[k] == name;
      assert entries[k] == (name, value);
    }
  }

  /** Equal texts are texts of equal name-to-digest maps, however names collate. */
  lemma CanonicalTells(a: Variables, b: Variables, collation: Collation)
    requires Canonical(a, collation) == Canonical(b, collation)
    ensures Digests(a) == Digests(b)
  {
    hide EntriesOf, Digests, ListText;
    ListTells(SortedEntries(EntriesOf(a), collation), SortedEntries(EntriesOf(b), collation));
    SortedEntriesKeep(EntriesOf(a), collation);
    SortedEntriesKeep(EntriesOf(b), collation);
    SameEntries(EntriesOf(a), EntriesOf(b));
    EntriesTell(a);
    EntriesTell(b);
    forall name ensures name in Digests(a) <==> name in Digests(b) {
      if name in Digests(a) {
        assert (name, Digests(a)[name]) in EntriesOf(a);
      }
      if name in Digests(b) {
        assert (name, Digests(b)[name]) in EntriesOf(b);
      }
    }
    forall name | name in Digests(a) ensures Digests(a)[name] == Digests(b)[name] {
      assert (name, Digests(a)[name]) in EntriesOf(a);
    }
  }

  lemma SameEntries(a: seq<Entry>, b: seq<Entry>)
    requires multiset(a) == multiset(b)
    ensures forall entry :: entry in a <==> entry in b
  {
    forall entry ensures entry in a <==> entry in b {
      assert entry in a <==> entry in multiset(a);
      assert entry in b <==> entry in multiset(b);
    }
  }

  lemma {:induction false} LastWithKey(recorded: seq<Variables>, key: string, collation: Collation)
    requires exists i :: 0 <= i < |recorded| && Canonical(recorded[i], collation) == key
    ensures LastWith(recorded, key, collation) in recorded && Canonical(LastWith(recorded, key, collation), collation) == key
  {
    hide Canonical;
    var n := |recorded| - 1;
    if Canonical(recorded[n], collation) != key {
      var i :| 0 <= i < |recorded| && Canonical(recorded[i], collation) == key;
      assert recorded[..n][i] == recorded[i];
      LastWithKey(recorded[..n], key, collation);
    }
  }

  /** `kept` holds the recorded values and no others: each record's digests are those of one kept. */
  ghost predicate Represents(kept: seq<Variables>, recorded: seq<Variables>) {
    && (forall each :: each in kept ==> each in recorded)
    && (forall each :: each in recorded ==> exists c :: c in kept && Digests(c) == Digests(each))
  }

  lemma KeysStand(recorded: seq<Variables>, collation: Collation, k: nat)
    requires k < |Distinct(Map(recorded, KeyBy(collation)))|
    ensures var kept := DistinctConfigurations(recorded, collation);
      && |kept| == |Distinct(Map(recorded, KeyBy(collation)))|
      && kept[k] in recorded && Canonical(kept[k], collation) == Distinct(Map(recorded, KeyBy(collation)))[k]
  {
    hide Canonical, Distinct;
    var keys := Distinct(Map(recorded, KeyBy(collation)));
    DistinctElements(Map(recorded, KeyBy(collation)));
    assert keys[k] in Elements(keys);
    var i :| 0 <= i < |recorded| && Map(recorded, KeyBy(collation))[i] == keys[k];
    assert Canonical(recorded[i], collation) == keys[k];
    LastWithKey(recorded, keys[k], collation);
  }

  /** Dropping configurations with a key already seen keeps one for every record, and invents none. */
  lemma DistinctRepresents(recorded: seq<Variables>, collation: Collation)
    ensures Represents(DistinctConfigurations(recorded, collation), recorded)
  {
    var keys := Distinct(Map(recorded, KeyBy(collation)));
    var kept := DistinctConfigurations(recorded, collation);
    assert |kept| == |keys|;
    DistinctElements(Map(recorded, KeyBy(collation)));
    hide Canonical, Distinct, DistinctConfigurations, Digests;
    forall k | 0 <= k < |keys| ensures kept[k] in recorded && Canonical(kept[k], collation) == keys[k] {
      KeysStand(recorded, collation, k);
    }
    forall each | each in recorded ensures exists c :: c in kept && Digests(c) == Digests(each) {
      var i :| 0 <= i < |recorded| && recorded[i] == each;
      assert Map(recorded, KeyBy(collation))[i] == Canonical(each, collation);
      assert Canonical(each, collation) in Elements(keys);
      var k :| 0 <= k < |keys| && keys[k] == Canonical(each, collation);
      CanonicalTells(kept[k], each, collation);
      assert kept[k] in kept;
    }
  }

  lemma AlikeByDigests(a: Variables, b: Variables, c: Variables, d: Variables)
    requires Digests(c) == Digests(a) && Digests(d) == Digests(b) && Alike(c, d)
    ensures Alike(a, b)
  {
    forall name ensures ValueOf(a, name) == ValueOf(b, name) {
      assert ValueOf(c, name) == ValueOf(d, name);
    }
  }

  lemma RepresentedAlike(recorded: seq<Variables>, kept: seq<Variables>)
    requires AllAlike(kept)
    requires forall each :: each in recorded ==> exists c :: c in kept && Digests(c) == Digests(each)
    ensures AllAlike(recorded)
  {
    hide Alike, Digests;
    forall a, b | a in recorded && b in recorded ensures Alike(a, b) {
      var c :| c in kept && Digests(c) == Digests(a);
      var d :| d in kept && Digests(d) == Digests(b);
      AlikeByDigests(a, b, c, d);
    }
  }

  lemma FewerAlike(few: seq<Variables>, all: seq<Variables>)
    requires AllAlike(all) && forall each :: each in few ==> each in all
    ensures AllAlike(few)
  {
    hide Alike;
  }

  lemma RepresentedKeepAlike(kept: seq<Variables>, recorded: seq<Variables>)
    requires Represents(kept, recorded)
    ensures AllAlike(kept) <==> AllAlike(recorded)
    ensures kept == [] <==> recorded == []
  {
    hide AllAlike, Digests;
    if AllAlike(kept) {
      RepresentedAlike(recorded, kept);
    }
    if AllAlike(recorded) {
      FewerAlike(kept, recorded);
    }
    if recorded != [] {
      assert recorded[0] in recorded;
    }
    if kept != [] {
      assert kept[0] in kept;
    }
  }

  lemma DistinctKeepsAlike(recorded: seq<Variables>, collation: Collation)
    ensures AllAlike(DistinctConfigurations(recorded, collation)) <==> AllAlike(recorded)
    ensures DistinctConfigurations(recorded, collation) == [] <==> recorded == []
  {
    hide *;
    DistinctRepresents(recorded, collation);
    RepresentedKeepAlike(DistinctConfigurations(recorded, collation), recorded);
  }

  lemma {:induction false} RecordedOnesMean(records: seq<Recorded>)
    ensures |RecordedOnes(records)| <= |records|
    ensures |RecordedOnes(records)| == |records| <==> forall i :: 0 <= i < |records| ==> records[i].Some?
    ensures forall each :: each in RecordedOnes(records) <==> Some(each) in records
  {
    if records != [] {
      RecordedOnesMean(records[1..]);
      assert records == [records[0]] + records[1..];
      assert (forall i :: 0 <= i < |records| ==> records[i].Some?) <==>
        records[0].Some? && forall i :: 0 <= i < |records[1..]| ==> records[1..][i].Some?;
    }
  }

  /** Every record of an arm says what it inherited, and there is one. */
  ghost predicate FullyRecorded(records: seq<Recorded>) {
    records != [] && forall i :: 0 <= i < |records| ==> records[i].Some?
  }

  ghost function Everything(records: Records): seq<Variables> {
    RecordedOnes(records.baseline) + RecordedOnes(records.candidate) + RecordedOnes(records.control)
  }

  lemma ArmSilent(arm: Role, records: seq<Recorded>, collation: Collation)
    ensures var c := ArmConfigurationOf(records, collation);
      (c.configurations != [] && MixedFinding(arm, c) == []) <==> FullyRecorded(records) && AllAlike(RecordedOnes(records))
    ensures FullyRecorded(records) ==> RecordedOnes(records) != []
  {
    RecordedOnesMean(records);
    DistinctKeepsAlike(RecordedOnes(records), collation);
    NotMixedMeans(arm, ArmConfigurationOf(records, collation));
  }

  lemma PairSilent(l: Role, r: Role, left: seq<Recorded>, right: seq<Recorded>, collation: Collation)
    requires FullyRecorded(left) && FullyRecorded(right)
    requires AllAlike(RecordedOnes(left)) && AllAlike(RecordedOnes(right))
    ensures PairFinding(l, r, ArmConfigurationOf(left, collation), ArmConfigurationOf(right, collation)) == [] <==>
      AllAlike(RecordedOnes(left) + RecordedOnes(right))
  {
    var a, b := RecordedOnes(left), RecordedOnes(right);
    RecordedOnesMean(left);
    RecordedOnesMean(right);
    DistinctKeepsAlike(a, collation);
    DistinctKeepsAlike(b, collation);
    DistinctRepresents(a, collation);
    DistinctRepresents(b, collation);
    hide RecordedOnes, DistinctConfigurations, AllAlike, PairFinding;
    var ka, kb := DistinctConfigurations(a, collation), DistinctConfigurations(b, collation);
    NoPairDifferenceMeans(l, r, ArmConfigurationOf(left, collation), ArmConfigurationOf(right, collation));
    AlikeTogetherEither(a, b, ka, kb);
  }

  lemma AlikeTogetherEither(a: seq<Variables>, b: seq<Variables>, ka: seq<Variables>, kb: seq<Variables>)
    requires AllAlike(a) && AllAlike(b) && AllAlike(ka) && AllAlike(kb) && ka != [] && kb != []
    requires (forall each :: each in ka ==> each in a) && (forall each :: each in kb ==> each in b)
    ensures AllAlike(ka + kb) <==> AllAlike(a + b)
  {
    assert ka[0] in ka && kb[0] in kb;
    if AllAlike(ka + kb) {
      assert ka[0] in ka + kb && kb[0] in ka + kb;
      Bridge(a, b, ka[0], kb[0]);
    }
    if AllAlike(a + b) {
      FewerAlike(ka + kb, a + b);
    }
  }

  lemma Bridge(a: seq<Variables>, b: seq<Variables>, x: Variables, y: Variables)
    requires AllAlike(a) && AllAlike(b) && x in a && y in b && Alike(x, y)
    ensures AllAlike(a + b)
  {
    assert Alike(a[0], x) && Alike(y, b[0]);
    AlikeTogether(a, b);
  }

  /**
   * Nothing is reported exactly when every arm has a record, every record says what it
   * inherited, and all of them, across the arms, read alike.
   */
  lemma NoFindingsMeans(records: Records, collation: Collation)
    ensures Findings(records, collation) == [] <==>
      && FullyRecorded(records.baseline) && FullyRecorded(records.candidate) && FullyRecorded(records.control)
      && AllAlike(Everything(records))
  {
    FindingsParts(records, collation);
    ArmSilent(Baseline, records.baseline, collation);
    ArmSilent(Candidate, records.candidate, collation);
    ArmSilent(Control, records.control, collation);
    hide Findings, ArmConfigurationOf, MixedFinding, PairFinding, RecordedOnes, AllAlike, FullyRecorded;
    var a, b, c := RecordedOnes(records.baseline), RecordedOnes(records.candidate), RecordedOnes(records.control);
    AlikePieces(a, b, c);
    if FullyRecorded(records.baseline) && FullyRecorded(records.candidate) && FullyRecorded(records.control)
       && AllAlike(a) && AllAlike(b) && AllAlike(c) {
      PairSilent(Candidate, Baseline, records.candidate, records.baseline, collation);
      PairSilent(Baseline, Control, records.baseline, records.control, collation);
      PairSilent(Candidate, Control, records.candidate, records.control, collation);
    }
  }

  lemma AlikePieces(a: seq<Variables>, b: seq<Variables>, c: seq<Variables>)
    ensures AllAlike(a + b + c) <==>
      AllAlike(a) && AllAlike(b) && AllAlike(c) && AllAlike(b + a) && AllAlike(a + c) && AllAlike(b + c)
  {
    forall x ensures x in a + b + c <==> x in a || x in b || x in c {
    }
    if AllAlike(a) && AllAlike(b) && AllAlike(c) && AllAlike(b + a) && AllAlike(a + c) && AllAlike(b + c) {
      forall x, y | x in a + b + c && y in a + b + c ensures Alike(x, y) {
        assert (x in b + a && y in b + a) || (x in a + c && y in a + c) || (x in b + c && y in b + c);
      }
    }
    if AllAlike(a + b + c) {
      assert forall x :: x in b + a || x in a + c || x in b + c ==> x in a + b + c;
    }
  }

  lemma FindingsParts(records: Records, collation: Collation)
    ensures var b, d, c := ArmConfigurationOf(records.baseline, collation), ArmConfigurationOf(records.candidate, collation),
        ArmConfigurationOf(records.control, collation);
      Findings(records, collation) == [] <==>
        && b.configurations != [] && d.configurations != [] && c.configurations != []
        && MixedFinding(Baseline, b) == [] && MixedFinding(Candidate, d) == [] && MixedFinding(Control, c) == []
        && PairFinding(Candidate, Baseline, d, b) == [] && PairFinding(Baseline, Control, b, c) == []
        && PairFinding(Candidate, Control, d, c) == []
  {
    hide ArmConfigurationOf, MixedFinding, PairFinding, UnrecordedArms;
    var roles := [Baseline, Candidate, Control];
    assert roles[0] == Baseline && roles[1] == Candidate && roles[2] == Control;
    AllArmsRecorded(roles, records, collation);
    var b, d, c := ArmConfigurationOf(records.baseline, collation), ArmConfigurationOf(records.candidate, collation),
      ArmConfigurationOf(records.control, collation);
    assert records.Of(Baseline) == records.baseline && records.Of(Candidate) == records.candidate
      && records.Of(Control) == records.control;
    assert |Findings(records, collation)|
      == (if UnrecordedArms(roles, records, collation) == [] then 0 else 1)
         + |MixedFinding(Baseline, b)| + |MixedFinding(Candidate, d)| + |MixedFinding(Control, c)|
         + |PairFinding(Candidate, Baseline, d, b)| + |PairFinding(Baseline, Control, b, c)|
         + |PairFinding(Candidate, Control, d, c)|;
  }

  lemma {:induction false} AllArmsRecorded(roles: seq<Role>, records: Records, collation: Collation)
    ensures UnrecordedArms(roles, records, collation) == [] <==>
      forall role :: role in roles ==> ArmConfigurationOf(records.Of(role), collation).configurations != []
  {
    hide ArmConfigurationOf;
    if roles != [] {
      AllArmsRecorded(roles[1..], records, collation);
      assert roles == [roles[0]] + roles[1..];
    }
  }

  /** Digests are never empty text, as the record schema demands. */
  ghost predicate DigestsNonEmpty(variables: Variables) {
    forall name :: name in Digests(variables) ==> Digests(variables)[name] != Some("")
  }

  /** Reading alike is having the same name-to-digest map, unless an empty digest stands in for none. */
  lemma AlikeMeansSameDigests(a: Variables, b: Variables)
    requires DigestsNonEmpty(a) && DigestsNonEmpty(b)
    ensures Alike(a, b) <==> Digests(a) == Digests(b)
  {
    if Alike(a, b) {
      forall name
        ensures name in Digests(a) <==> name in Digests(b)
        ensures name in Digests(a) && name in Digests(b) ==> Digests(a)[name] == Digests(b)[name]
      {
        assert ValueOf(a, name) == ValueOf(b, name);
        assert |ABSENT| == 6;
        if name in Digests(a) && name in Digests(b) {
          var x := if Digests(a)[name].Some? then Digests(a)[name].value else "";
          var y := if Digests(b)[name].Some? then Digests(b)[name].value else "";
          assert ("inherited:" + x)[10..] == x && ("inherited:" + y)[10..] == y;
        }
      }
    }
  }

  /** A SHA-256 digest as records carry it: 64 lower-case hexadecimal digits. */
  predicate IsSha256(text: string) {
    |text| == 64 && forall c :: c in text ==> '0' <= c <= '9' || 'a' <= c <= 'f'
  }

  /** What the record's schema demands of each variable's digest. */
  predicate Conforms(variables: Variables) {
    forall v :: v in variables && v.sha256.Some? ==> IsSha256(v.sha256.value)
  }

  lemma {:induction false} ConformingDigests(variables: Variables)
    requires Conforms(variables)
    ensures DigestsNonEmpty(variables)
  {
    if variables != [] {
      var n := |variables| - 1;
      assert variables[n] in variables;
      ConformingDigests(variables[..n]);
    }
  }

  ghost predicate OneConfiguration(configurations: seq<Variables>) {
    forall a, b :: a in configurations && b in configurations ==> Digests(a) == Digests(b)
  }

  lemma AlikeIsOneConfiguration(configurations: seq<Variables>)
    requires forall each :: each in configurations ==> Conforms(each)
    ensures AllAlike(configurations) <==> OneConfiguration(configurations)
  {
    hide Alike, Digests;
    forall a, b | a in configurations && b in configurations ensures Alike(a, b) <==> Digests(a) == Digests(b) {
      ConformingDigests(a);
      ConformingDigests(b);
      AlikeMeansSameDigests(a, b);
    }
  }

  /**
   * Nothing is reported exactly when every arm has a record, every record says what it inherited,
   * and all of them, across the arms, are one name-to-digest map.
   */
  lemma NoFindingsMeansOneConfiguration(records: Records, collation: Collation)
    requires forall each :: each in Everything(records) ==> Conforms(each)
    ensures Findings(records, collation) == [] <==>
      && FullyRecorded(records.baseline) && FullyRecorded(records.candidate) && FullyRecorded(records.control)
      && OneConfiguration(Everything(records))
  {
    hide Findings, Everything, AllAlike, OneConfiguration, FullyRecorded, Conforms;
    NoFindingsMeans(records, collation);
    AlikeIsOneConfiguration(Everything(records));
  }

  /** Why the schema matters: an empty digest and no digest read alike, though the maps differ. */
  lemma EmptyDigestReadsAsNone()
    ensures var a, b := [Variable("X", None)], [Variable("X", Some(""))];
      Alike(a, b) && Digests(a) != Digests(b)
  {
    var a, b := [Variable("X", None)], [Variable("X", Some(""))];
    assert a[..0] == [] && b[..0] == [];
    assert Digests(a) == map["X" := None] && Digests(b) == map["X" := Some("")];
    assert Digests(a)["X"] != Digests(b)["X"];
  }
}
