/** What each finding about inherited configuration lists, read off the records. */
module InheritedFindings {
  import opened Wrappers
  import opened Collections
  import opened Ordering
  import opened ComparisonEvidence
  import opened InheritedConfiguration

  function TextOf(digest: Option<string>): string {
    if digest.None? then "" else digest.value
  }

  /** Both leave the name out, or both hold it with digests of one text. */
  ghost predicate SameReading(a: Variables, b: Variables, name: string) {
    && (name in Digests(a) <==> name in Digests(b))
    && (name in Digests(a) && name in Digests(b) ==> TextOf(Digests(a)[name]) == TextOf(Digests(b)[name]))
  }

  lemma ValuesTell(a: Variables, b: Variables, name: string)
    ensures ValueOf(a, name) == ValueOf(b, name) <==> SameReading(a, b, name)
    ensures ValueOf(a, name) == ABSENT <==> name !in Digests(a)
  {
    var prefix := "inherited:";
    if name in Digests(a) {
      assert ValueOf(a, name) == prefix + TextOf(Digests(a)[name]);
      assert ValueOf(a, name)[0] == 'i' && ABSENT[0] == 'a';
      assert ValueOf(a, name)[|prefix|..] == TextOf(Digests(a)[name]);
    }
    if name in Digests(b) {
      assert ValueOf(b, name) == prefix + TextOf(Digests(b)[name]);
      assert ValueOf(b, name)[0] == 'i' && ABSENT[0] == 'a';
      assert ValueOf(b, name)[|prefix|..] == TextOf(Digests(b)[name]);
    }
  }

  /** A name's digest is the one it was recorded with last. */
  lemma {:induction false} DigestsMean(variables: Variables, k: nat)
    requires k < |variables| && forall j :: k < j < |variables| ==> variables[j].name != variables[k].name
    ensures variables[k].name in Digests(variables) && Digests(variables)[variables[k].name] == variables[k].sha256
  {
    var n := |variables| - 1;
    if k < n {
      DigestsMean(variables[..n], k);
    }
  }

  // ---- the names that differ within an arm

  ghost predicate DiffersWithin(configurations: seq<Variables>, name: string) {
    exists a, b :: a in configurations && b in configurations && !SameReading(a, b, name)
  }

  lemma TwoValues(configurations: seq<Variables>, name: string)
    ensures |ValuesOf(configurations, name)| > 1 <==> DiffersWithin(configurations, name)
  {
    var values := ValuesOf(configurations, name);
    forall a, b | a in configurations && b in configurations
      ensures ValueOf(a, name) == ValueOf(b, name) <==> SameReading(a, b, name)
    {
      ValuesTell(a, b, name);
    }
    hide SameReading, ValueOf;
    if a, b :| a in configurations && b in configurations && !SameReading(a, b, name) {
      assert ValueOf(a, name) in values && ValueOf(b, name) in values;
      OneElement(values, ValueOf(a, name), ValueOf(b, name));
    } else if configurations != [] {
      assert configurations[0] in configurations;
      assert values == {ValueOf(configurations[0], name)};
    } else {
      assert values == {};
    }
  }

  lemma {:induction false} NamesThatDifferMean(configurations: seq<Variables>, names: seq<string>)
    ensures forall name :: name in NamesThatDiffer(configurations, names) <==> name in names && DiffersWithin(configurations, name)
    ensures Ascending(names) && NoRepeats(names) ==>
      Ascending(NamesThatDiffer(configurations, names)) && NoRepeats(NamesThatDiffer(configurations, names))
  {
    hide DiffersWithin, ValuesOf, AtMost;
    if names != [] {
      NamesThatDifferMean(configurations, names[1..]);
      TwoValues(configurations, names[0]);
      var rest := NamesThatDiffer(configurations, names[1..]);
      assert names == [names[0]] + names[1..];
      forall i | 0 <= i < |rest| ensures rest[i] in names[1..] {
        assert rest[i] in rest;
      }
    }
  }

  lemma NamesInMean(configurations: seq<Variables>)
    ensures forall each, name :: each in configurations && name in Digests(each) ==> name in NamesIn(configurations)
    ensures Ascending(NamesIn(configurations)) && NoRepeats(NamesIn(configurations))
  {
    forall each, name | each in configurations && name in Digests(each) ensures name in NamesIn(configurations) {
      NamesInListed(configurations, each, name);
    }
    DistinctElements(AllNames(configurations));
    SortKeeps(Distinct(AllNames(configurations)));
  }

  lemma DifferingIsNamed(configurations: seq<Variables>, name: string)
    requires DiffersWithin(configurations, name)
    ensures name in NamesIn(configurations)
  {
    NamesInMean(configurations);
    var a, b :| a in configurations && b in configurations && !SameReading(a, b, name);
  }

  /** The records of an arm that say what was inherited. */
  ghost predicate Inherited(records: seq<Recorded>, variables: Variables) {
    Some(variables) in records
  }

  ghost predicate DiffersAmong(records: seq<Recorded>, name: string) {
    exists a, b :: Inherited(records, a) && Inherited(records, b) && !SameReading(a, b, name)
  }

  /** A configuration of the list has these digests. */
  ghost predicate StandsIn(kept: seq<Variables>, variables: Variables) {
    exists each :: each in kept && Digests(each) == Digests(variables)
  }

  /** What is kept of an arm's records reads as they do. */
  lemma KeptRecords(records: seq<Recorded>, collation: Collation)
    ensures var kept := ArmConfigurationOf(records, collation).configurations;
      && (forall a :: a in kept ==> Inherited(records, a))
      && (forall a :: Inherited(records, a) ==> StandsIn(kept, a))
    ensures ArmConfigurationOf(records, collation).unrecorded <==> None in records
  {
    RecordedOnesMean(records);
    DistinctRepresents(RecordedOnes(records), collation);
    hide DistinctConfigurations, Digests;
    if None in records {
      var i :| 0 <= i < |records| && records[i] == None;
    }
  }

  lemma ReadByDigests(a: Variables, b: Variables, c: Variables, d: Variables, name: string)
    requires Digests(c) == Digests(a) && Digests(d) == Digests(b)
    ensures SameReading(c, d, name) <==> SameReading(a, b, name)
  {
  }

  lemma StandIn(kept: seq<Variables>, variables: Variables) returns (each: Variables)
    requires StandsIn(kept, variables)
    ensures each in kept && Digests(each) == Digests(variables)
  {
    each :| each in kept && Digests(each) == Digests(variables);
  }

  lemma KeptDiffer(records: seq<Recorded>, collation: Collation, name: string)
    ensures DiffersWithin(ArmConfigurationOf(records, collation).configurations, name) <==> DiffersAmong(records, name)
  {
    var kept := ArmConfigurationOf(records, collation).configurations;
    KeptRecords(records, collation);
    hide ArmConfigurationOf, Inherited, Digests, SameReading, StandsIn;
    if a, b :| Inherited(records, a) && Inherited(records, b) && !SameReading(a, b, name) {
      var c := StandIn(kept, a);
      var d := StandIn(kept, b);
      ReadByDigests(a, b, c, d, name);
    }
  }

  ghost function MixedNames(records: seq<Recorded>, collation: Collation): seq<string> {
    var c := ArmConfigurationOf(records, collation);
    NamesThatDiffer(c.configurations, NamesIn(c.configurations))
  }

  lemma MixedNamesMean(records: seq<Recorded>, collation: Collation)
    ensures forall name :: name in MixedNames(records, collation) <==> DiffersAmong(records, name)
    ensures Ascending(MixedNames(records, collation)) && NoRepeats(MixedNames(records, collation))
  {
    var c := ArmConfigurationOf(records, collation);
    NamesInMean(c.configurations);
    NamesThatDifferMean(c.configurations, NamesIn(c.configurations));
    hide ArmConfigurationOf, NamesThatDiffer, NamesIn, DiffersAmong, DiffersWithin, Digests, AtMost, Ascending, NoRepeats;
    forall name ensures name in MixedNames(records, collation) <==> DiffersAmong(records, name) {
      KeptDiffer(records, collation, name);
      if DiffersWithin(c.configurations, name) {
        DifferingIsNamed(c.configurations, name);
      }
    }
  }

  lemma AnyName(names: seq<string>)
    ensures names != [] <==> exists name :: name in names
  {
    if names != [] {
      assert names[0] in names;
    }
  }

  lemma AnyRecorded(records: seq<Recorded>, collation: Collation)
    ensures ArmConfigurationOf(records, collation).configurations != [] <==> exists a :: Inherited(records, a)
  {
    KeptRecords(records, collation);
    hide Inherited, ArmConfigurationOf, Digests;
    var kept := ArmConfigurationOf(records, collation).configurations;
    if kept != [] {
      assert kept[0] in kept;
    }
  }

  /**
   * An arm is reported as mixed when two of its records read a name differently, or one says
   * nothing beside others that do. The finding lists exactly those names, sorted.
   */
  lemma MixedMeans(arm: Role, records: seq<Recorded>, collation: Collation)
    ensures var found := MixedFinding(arm, ArmConfigurationOf(records, collation));
      && (found != [] <==> (exists name :: DiffersAmong(records, name)) || (None in records && exists a :: Inherited(records, a)))
      && (found != [] ==>
            && |found| == 1 && found[0].Mixed? && found[0].arm == arm && (found[0].unrecorded <==> None in records)
            && (forall name :: name in found[0].names <==> DiffersAmong(records, name))
            && Ascending(found[0].names) && NoRepeats(found[0].names))
  {
    KeptRecords(records, collation);
    MixedNamesMean(records, collation);
    AnyName(MixedNames(records, collation));
    AnyRecorded(records, collation);
    hide ArmConfigurationOf, NamesThatDiffer, NamesIn, DiffersAmong, Digests, Inherited, Ascending, NoRepeats;
  }

  // ---- the names that differ between two arms

  ghost predicate Holds(records: seq<Recorded>, name: string) {
    exists a :: Inherited(records, a) && name in Digests(a)
  }

  /** Every record of the one reads the name as some record of the other. */
  ghost predicate ReadsWithin(left: seq<Recorded>, right: seq<Recorded>, name: string) {
    forall a :: Inherited(left, a) ==> exists b :: Inherited(right, b) && SameReading(a, b, name)
  }

  ghost predicate HoldsIn(configurations: seq<Variables>, name: string) {
    exists a :: a in configurations && name in Digests(a)
  }

  lemma NobodyHolds(configurations: seq<Variables>, name: string)
    requires configurations != []
    ensures OnlyAbsent(ValuesOf(configurations, name)) <==> !HoldsIn(configurations, name)
  {
    var values := ValuesOf(configurations, name);
    forall a | a in configurations ensures ValueOf(a, name) == ABSENT <==> name !in Digests(a) {
      ValuesTell(a, a, name);
    }
    hide ValueOf, Digests;
    assert configurations[0] in configurations;
    if HoldsIn(configurations, name) && ABSENT in values {
      var a :| a in configurations && name in Digests(a);
      assert ValueOf(a, name) in values;
      OneElement(values, ValueOf(a, name), ABSENT);
    }
    if !HoldsIn(configurations, name) {
      assert values == {ABSENT} by {
        assert ValueOf(configurations[0], name) in values;
      }
    }
  }

  ghost predicate IncludedIn(left: seq<Variables>, right: seq<Variables>, name: string) {
    forall a :: a in left ==> exists b :: b in right && SameReading(a, b, name)
  }

  lemma InclusionMeans(left: seq<Variables>, right: seq<Variables>, name: string)
    ensures ValuesOf(left, name) <= ValuesOf(right, name) <==> IncludedIn(left, right, name)
  {
    forall a, b | a in left && b in right ensures ValueOf(a, name) == ValueOf(b, name) <==> SameReading(a, b, name) {
      ValuesTell(a, b, name);
    }
    hide ValueOf, SameReading;
    if ValuesOf(left, name) <= ValuesOf(right, name) {
      forall a | a in left ensures exists b :: b in right && SameReading(a, b, name) {
        assert ValueOf(a, name) in ValuesOf(left, name);
        assert ValueOf(a, name) in ValuesOf(right, name);
        var b :| b in right && ValueOf(b, name) == ValueOf(a, name);
      }
    }
  }

  lemma KeptHold(records: seq<Recorded>, collation: Collation, name: string)
    ensures HoldsIn(ArmConfigurationOf(records, collation).configurations, name) <==> Holds(records, name)
  {
    var kept := ArmConfigurationOf(records, collation).configurations;
    KeptRecords(records, collation);
    hide ArmConfigurationOf, Inherited, Digests, StandsIn;
    if a :| Inherited(records, a) && name in Digests(a) {
      var c := StandIn(kept, a);
    }
  }

  lemma KeptInclude(left: seq<Recorded>, right: seq<Recorded>, collation: Collation, name: string)
    ensures IncludedIn(ArmConfigurationOf(left, collation).configurations, ArmConfigurationOf(right, collation).configurations, name)
      <==> ReadsWithin(left, right, name)
  {
    var l, r := ArmConfigurationOf(left, collation).configurations, ArmConfigurationOf(right, collation).configurations;
    KeptRecords(left, collation);
    KeptRecords(right, collation);
    hide ArmConfigurationOf, Inherited, Digests, StandsIn, SameReading;
    if IncludedIn(l, r, name) {
      forall a | Inherited(left, a) ensures exists b :: Inherited(right, b) && SameReading(a, b, name) {
        var c := StandIn(l, a);
        var b :| b in r && SameReading(c, b, name);
        ReadByDigests(a, b, c, b, name);
      }
    }
    if ReadsWithin(left, right, name) {
      forall a | a in l ensures exists b :: b in r && SameReading(a, b, name) {
        var b :| Inherited(right, b) && SameReading(a, b, name);
        var d := StandIn(r, b);
        ReadByDigests(a, b, a, d, name);
      }
    }
  }

  function NameOf(variable: Differing): string {
    variable.name
  }

  lemma BothAbsent(a: set<string>, b: set<string>)
    ensures OnlyAbsent(a) && OnlyAbsent(b) ==> a == b
  {
    if OnlyAbsent(a) && OnlyAbsent(b) {
      forall x ensures x in a <==> x in b {
        if x in a {
          OneElement(a, x, ABSENT);
        }
        if x in b {
          OneElement(b, x, ABSENT);
        }
      }
    }
  }

  /** What is listed of one name. */
  ghost function ListedFor(l: Role, r: Role, left: seq<Variables>, right: seq<Variables>, name: string): seq<Differing> {
    DifferingVariables(l, r, left, right, [name])
  }

  lemma ListedOnce(l: Role, r: Role, left: seq<Variables>, right: seq<Variables>, name: string)
    requires l != r
    ensures var a, b := ValuesOf(left, name), ValuesOf(right, name);
      ListedFor(l, r, left, right, name)
      == if a == b then [] else if OnlyAbsent(b) then [OnlyIn(name, l)] else if OnlyAbsent(a) then [OnlyIn(name, r)]
         else [DifferentValue(name)]
  {
    SameValuesMeans(ValuesOf(left, name), ValuesOf(right, name));
    hide ValuesOf, SameValues, OnlyAbsent;
    var names := [name];
    assert names[0] == name && names[1..] == [];
    assert DifferingVariables(l, r, left, right, names[1..]) == [];
  }

  lemma {:induction false} ListedByName(
    l: Role, r: Role, left: seq<Variables>, right: seq<Variables>, names: seq<string>, v: Differing)
    requires l != r
    ensures v in DifferingVariables(l, r, left, right, names) <==> v.name in names && v in ListedFor(l, r, left, right, v.name)
  {
    if names != [] {
      ListedByName(l, r, left, right, names[1..], v);
      ListedOnce(l, r, left, right, names[0]);
      ListedOnce(l, r, left, right, v.name);
      FirstListed(l, r, left, right, names);
      hide DifferingVariables, ListedFor;
      assert names == [names[0]] + names[1..];
    }
  }

  lemma FirstListed(l: Role, r: Role, left: seq<Variables>, right: seq<Variables>, names: seq<string>)
    requires names != []
    ensures DifferingVariables(l, r, left, right, names)
         == ListedFor(l, r, left, right, names[0]) + DifferingVariables(l, r, left, right, names[1..])
  {
    hide ValuesOf, SameValues, OnlyAbsent;
    assert [names[0]][1..] == [];
  }

  /** What the names of two arms' records are listed as. */
  ghost predicate ListedAs(variables: seq<Differing>, l: Role, r: Role, left: seq<Recorded>, right: seq<Recorded>, name: string) {
    && (OnlyIn(name, l) in variables <==> Holds(left, name) && !Holds(right, name))
    && (OnlyIn(name, r) in variables <==> Holds(right, name) && !Holds(left, name))
    && (DifferentValue(name) in variables <==>
          && Holds(left, name) && Holds(right, name)
          && !(ReadsWithin(left, right, name) && ReadsWithin(right, left, name)))
  }

  lemma NamedWhenHeld(a: seq<Variables>, b: seq<Variables>, name: string)
    requires HoldsIn(a, name) || HoldsIn(b, name)
    ensures name in NamesIn(a + b)
  {
    NamesInMean(a + b);
    hide NamesIn, Digests;
    if HoldsIn(a, name) {
      var each :| each in a && name in Digests(each);
      assert each in a + b;
    } else {
      var each :| each in b && name in Digests(each);
      assert each in a + b;
    }
  }

  lemma NotHeldAlike(a: seq<Variables>, b: seq<Variables>, name: string)
    requires a != [] && b != []
    ensures !HoldsIn(a, name) && !HoldsIn(b, name) ==> ValuesOf(a, name) == ValuesOf(b, name)
    ensures ValuesOf(a, name) == ValuesOf(b, name) ==> (HoldsIn(a, name) <==> HoldsIn(b, name))
  {
    NobodyHolds(a, name);
    NobodyHolds(b, name);
    BothAbsent(ValuesOf(a, name), ValuesOf(b, name));
    hide ValuesOf, HoldsIn;
    if ValuesOf(a, name) == ValuesOf(b, name) {
    }
  }

  lemma SameSets(a: set<string>, b: set<string>)
    ensures a == b <==> a <= b && b <= a
  {
  }

  lemma ListedAsMeans(l: Role, r: Role, left: seq<Recorded>, right: seq<Recorded>, collation: Collation, name: string)
    requires l != r
    requires ArmConfigurationOf(left, collation).configurations != [] && ArmConfigurationOf(right, collation).configurations != []
    ensures var a, b := ArmConfigurationOf(left, collation).configurations, ArmConfigurationOf(right, collation).configurations;
      ListedAs(DifferingVariables(l, r, a, b, NamesIn(a + b)), l, r, left, right, name)
  {
    var a, b := ArmConfigurationOf(left, collation).configurations, ArmConfigurationOf(right, collation).configurations;
    var names := NamesIn(a + b);
    hide *;
    KeptHold(left, collation, name);
    KeptHold(right, collation, name);
    KeptInclude(left, right, collation, name);
    KeptInclude(right, left, collation, name);
    InclusionMeans(a, b, name);
    InclusionMeans(b, a, name);
    SameSets(ValuesOf(a, name), ValuesOf(b, name));
    NobodyHolds(a, name);
    NobodyHolds(b, name);
    NotHeldAlike(a, b, name);
    if HoldsIn(a, name) || HoldsIn(b, name) {
      NamedWhenHeld(a, b, name);
    }
    ListedOnce(l, r, a, b, name);
    ListedByName(l, r, a, b, names, OnlyIn(name, l));
    ListedByName(l, r, a, b, names, OnlyIn(name, r));
    ListedByName(l, r, a, b, names, DifferentValue(name));
    assert OnlyIn(name, l).name == name && OnlyIn(name, r).name == name && DifferentValue(name).name == name;
    ListedFromVerdict(
      DifferingVariables(l, r, a, b, names), ListedFor(l, r, a, b, name), l, r, left, right, name,
      ValuesOf(a, name) == ValuesOf(b, name), OnlyAbsent(ValuesOf(a, name)), OnlyAbsent(ValuesOf(b, name)), name in names);
  }

  lemma ListedFromVerdict(
    variables: seq<Differing>, own: seq<Differing>, l: Role, r: Role, left: seq<Recorded>, right: seq<Recorded>, name: string,
    same: bool, leftAbsent: bool, rightAbsent: bool, named: bool)
    requires l != r
    requires own == if same then [] else if rightAbsent then [OnlyIn(name, l)] else if leftAbsent then [OnlyIn(name, r)]
      else [DifferentValue(name)]
    requires forall v :: v in [OnlyIn(name, l), OnlyIn(name, r), DifferentValue(name)] ==> (v in variables <==> named && v in own)
    requires leftAbsent <==> !Holds(left, name)
    requires rightAbsent <==> !Holds(right, name)
    requires same <==> ReadsWithin(left, right, name) && ReadsWithin(right, left, name)
    requires (leftAbsent && rightAbsent ==> same) && (same ==> (leftAbsent <==> rightAbsent))
    requires !leftAbsent || !rightAbsent ==> named
    ensures ListedAs(variables, l, r, left, right, name)
  {
    hide Holds, ReadsWithin;
    var kinds := [OnlyIn(name, l), OnlyIn(name, r), DifferentValue(name)];
    assert kinds[0] in kinds && kinds[1] in kinds && kinds[2] in kinds;
  }

  function VariablesIn(found: seq<Finding>): seq<Differing> {
    if found != [] && found[0].Differs? then found[0].variables else []
  }

  /**
   * Two arms are reported as different when a record of one reads some name as none of the other
   * does. A name only one of them holds is listed as that arm's, and one both hold by its name alone.
   */
  lemma PairMeans(l: Role, r: Role, left: seq<Recorded>, right: seq<Recorded>, collation: Collation)
    requires l != r
    ensures var found := PairFinding(l, r, ArmConfigurationOf(left, collation), ArmConfigurationOf(right, collation));
      var recorded := (exists a :: Inherited(left, a)) && exists a :: Inherited(right, a);
      && (found != [] ==> recorded && |found| == 1 && found[0].Differs? && found[0].left == l && found[0].right == r)
      && (recorded ==> forall name :: ListedAs(VariablesIn(found), l, r, left, right, name))
      && (found != [] ==> forall v :: v in found[0].variables ==>
            v == OnlyIn(v.name, l) || v == OnlyIn(v.name, r) || v == DifferentValue(v.name))
  {
    AnyRecorded(left, collation);
    AnyRecorded(right, collation);
    var a, b := ArmConfigurationOf(left, collation).configurations, ArmConfigurationOf(right, collation).configurations;
    hide ArmConfigurationOf, DifferingVariables, NamesIn, ListedAs, Inherited;
    if a != [] && b != [] {
      forall name {
        ListedAsMeans(l, r, left, right, collation, name);
      }
      forall v | v in DifferingVariables(l, r, a, b, NamesIn(a + b))
        ensures v == OnlyIn(v.name, l) || v == OnlyIn(v.name, r) || v == DifferentValue(v.name)
      {
        ListedByName(l, r, a, b, NamesIn(a + b), v);
        ListedOnce(l, r, a, b, v.name);
      }
    }
  }

  /** The arms none of whose records says what was inherited. */
  lemma {:induction false} UnrecordedMeans(roles: seq<Role>, records: Records, collation: Collation, role: Role)
    ensures role in UnrecordedArms(roles, records, collation) <==>
      role in roles && !exists a :: Inherited(records.Of(role), a)
  {
    hide ArmConfigurationOf, Inherited;
    AnyRecorded(records.Of(role), collation);
    if roles != [] {
      UnrecordedMeans(roles[1..], records, collation, role);
      assert roles == [roles[0]] + roles[1..];
    }
  }

  ghost predicate IsFinding(records: Records, collation: Collation, finding: Finding) {
    match finding
    case Unrecorded(arms) => arms != [] && arms == UnrecordedArms([Baseline, Candidate, Control], records, collation)
    case Mixed(arm, _, _) => finding in MixedFinding(arm, ArmConfigurationOf(records.Of(arm), collation))
    case Differs(left, right, _) =>
      && ((left == Candidate && right == Baseline) || (left == Baseline && right == Control)
          || (left == Candidate && right == Control))
      && finding in PairFinding(
           left, right, ArmConfigurationOf(records.Of(left), collation), ArmConfigurationOf(records.Of(right), collation))
  }

  lemma OnlyMixed(arm: Role, c: ArmConfiguration)
    ensures forall f :: f in MixedFinding(arm, c) ==> f.Mixed? && f.arm == arm
  {
    hide NamesThatDiffer, NamesIn;
  }

  lemma OnlyDiffers(l: Role, r: Role, left: ArmConfiguration, right: ArmConfiguration)
    ensures forall f :: f in PairFinding(l, r, left, right) ==> f.Differs? && f.left == l && f.right == r
  {
    hide DifferingVariables, NamesIn;
  }

  /** Each finding is of the arms without a record, of one arm, or of one of the three contrasts. */
  lemma FindingsListed(records: Records, collation: Collation, finding: Finding)
    ensures finding in Findings(records, collation) <==> IsFinding(records, collation, finding)
  {
    var b, d, c := ArmConfigurationOf(records.baseline, collation), ArmConfigurationOf(records.candidate, collation),
      ArmConfigurationOf(records.control, collation);
    OnlyMixed(Baseline, b);
    OnlyMixed(Candidate, d);
    OnlyMixed(Control, c);
    OnlyDiffers(Candidate, Baseline, d, b);
    OnlyDiffers(Baseline, Control, b, c);
    OnlyDiffers(Candidate, Control, d, c);
    hide ArmConfigurationOf, UnrecordedArms, MixedFinding, PairFinding;
  }
}
