/** The corpus a comparison's baseline runs, derived from the two arms that hold the skill under test. */
module BaselineCorpus {
  import opened Wrappers
  import opened Collections
  import opened Ordering

  /** A corpus: each layout path's digest, with the paths in the order they were listed. */
  datatype Corpus = Corpus(paths: seq<string>, digests: map<string, string>) {
    ghost predicate Valid() {
      NoRepeats(paths) && Elements(paths) == digests.Keys
    }
  }

  datatype Kind = Derived | ArmA

  /** Why no baseline is derived: nothing differs, too much does, or what differs is no skill. */
  datatype Reason = Identical | SeveralUnits | NotASkill(unit: string)

  datatype BaselineCorpus =
    | Baseline(kind: Kind, skillUnderTest: string, files: map<string, string>)
    | Refused(reason: Reason, differingUnits: seq<string>)

  const SKILLS := "skills/"

  /** The length of the directory name a text starts with, up to but without its slash. */
  function NameLength(text: string): nat {
    if text == "" || text[0] == '/' then 0 else 1 + NameLength(text[1..])
  }

  lemma {:induction false} NameLengthBound(text: string)
    ensures NameLength(text) <= |text|
    ensures '/' !in text[..NameLength(text)]
    ensures NameLength(text) < |text| ==> text[NameLength(text)] == '/'
  {
    if text != "" && text[0] != '/' {
      NameLengthBound(text[1..]);
      var n := NameLength(text[1..]);
      assert text[..n + 1] == [text[0]] + text[1..][..n];
    }
  }

  /** What `/^skills\/[^/]+\//u` matches at the start of a path. */
  function SkillDirectory(path: string): Option<string> {
    if !(SKILLS <= path) then None
    else
      var rest := path[|SKILLS|..];
      var n := NameLength(rest);
      NameLengthBound(rest);
      if n == 0 || n == |rest| then None else Some(path[..|SKILLS| + n + 1])
  }

  function UnitOf(path: string): string {
    var directory := SkillDirectory(path);
    if directory.Some? then directory.value else path
  }

  function LookUp(corpus: Corpus, path: string): Option<string> {
    if path in corpus.digests then Some(corpus.digests[path]) else None
  }

  function DifferingPaths(paths: seq<string>, a: Corpus, b: Corpus): seq<string> {
    if paths == [] then []
    else (if LookUp(a, paths[0]) != LookUp(b, paths[0]) then [paths[0]] else []) + DifferingPaths(paths[1..], a, b)
  }

  function DifferingUnits(a: Corpus, b: Corpus): seq<string> {
    SortStrings(Distinct(Map(DifferingPaths(Distinct(a.paths + b.paths), a, b), UnitOf)))
  }

  function WithoutUnit(corpus: Corpus, unit: string): map<string, string> {
    map path | path in corpus.digests && UnitOf(path) != unit :: corpus.digests[path]
  }

  function DeriveBaselineCorpus(a: Corpus, b: Corpus): BaselineCorpus {
    var units := DifferingUnits(a, b);
    if units == [] then Refused(Identical, [])
    else if |units| > 1 then Refused(SeveralUnits, units)
    else if SkillDirectory(units[0]).None? then Refused(NotASkill(units[0]), units)
    else
      var files := WithoutUnit(a, units[0]);
      Baseline(if |files| == |a.digests| then ArmA else Derived, units[0], files)
  }

  lemma {:induction false} DifferingPathsListed(paths: seq<string>, a: Corpus, b: Corpus)
    ensures forall p :: p in DifferingPaths(paths, a, b) <==> p in paths && LookUp(a, p) != LookUp(b, p)
  {
    if paths != [] {
      DifferingPathsListed(paths[1..], a, b);
      assert paths == [paths[0]] + paths[1..];
    }
  }

  /** A unit differs exactly when some path of it does. */
  lemma DifferingUnitsListed(a: Corpus, b: Corpus)
    requires a.Valid() && b.Valid()
    ensures NoRepeats(DifferingUnits(a, b)) && Ascending(DifferingUnits(a, b))
    ensures forall unit :: unit in DifferingUnits(a, b) <==>
      exists p :: LookUp(a, p) != LookUp(b, p) && UnitOf(p) == unit
  {
    var all := Distinct(a.paths + b.paths);
    var differing := DifferingPaths(all, a, b);
    var units := Map(differing, UnitOf);
    DistinctElements(a.paths + b.paths);
    DifferingPathsListed(all, a, b);
    DistinctElements(units);
    SortKeeps(Distinct(units));
    forall p | LookUp(a, p) != LookUp(b, p) ensures p in differing {
      assert p in Elements(a.paths) || p in Elements(b.paths);
      assert p in Elements(a.paths + b.paths);
      assert p in Elements(all);
    }
    forall unit ensures unit in DifferingUnits(a, b) <==> exists p :: LookUp(a, p) != LookUp(b, p) && UnitOf(p) == unit {
      assert unit in DifferingUnits(a, b) <==> unit in Elements(units);
      if unit in units {
        var i :| 0 <= i < |units| && units[i] == unit;
        assert differing[i] in differing && UnitOf(differing[i]) == unit;
      }
      if p :| LookUp(a, p) != LookUp(b, p) && UnitOf(p) == unit {
        var i :| 0 <= i < |differing| && differing[i] == p;
        assert units[i] == unit;
      }
    }
  }

  /** Which units differ does not depend on which arm is asked about first. */
  lemma DifferingUnitsSymmetric(a: Corpus, b: Corpus)
    requires a.Valid() && b.Valid()
    ensures DifferingUnits(a, b) == DifferingUnits(b, a)
  {
    DifferingUnitsListed(a, b);
    DifferingUnitsListed(b, a);
    hide DifferingUnits;
    var one, other := DifferingUnits(a, b), DifferingUnits(b, a);
    forall unit ensures unit in Elements(one) <==> unit in Elements(other) {
      assert unit in one <==> unit in other;
    }
    SortedListUnique(one, other);
  }

  lemma UnitBegins(path: string)
    ensures UnitOf(path) <= path
  {
    if SkillDirectory(path).Some? {
      var rest := path[|SKILLS|..];
      NameLengthBound(rest);
      assert UnitOf(path) == path[..|SKILLS| + NameLength(rest) + 1];
    }
  }

  /** A skill's directory is its own unit, and every path of the unit lies inside it. */
  lemma UnitIsDirectory(unit: string, path: string)
    requires SkillDirectory(unit).Some? && UnitOf(unit) == unit
    ensures UnitOf(path) == unit <==> unit <= path
  {
    UnitBegins(path);
    if unit <= path {
      DirectoryOfPrefix(unit, path);
    }
  }

  lemma DirectoryOfPrefix(unit: string, path: string)
    requires SkillDirectory(unit) == Some(unit) && unit <= path
    ensures SkillDirectory(path) == Some(unit)
  {
    var inner, outer := unit[|SKILLS|..], path[|SKILLS|..];
    assert SKILLS <= path;
    assert inner <= outer;
    NameLengthBound(inner);
    NameLengthOfPrefix(inner, outer);
    assert unit == path[..|unit|];
  }

  lemma {:induction false} NameLengthOfPrefix(inner: string, outer: string)
    requires inner <= outer && NameLength(inner) < |inner|
    ensures NameLength(outer) == NameLength(inner)
  {
    if inner[0] != '/' {
      NameLengthOfPrefix(inner[1..], outer[1..]);
    }
  }

  lemma {:induction false} RestrictedSize(whole: map<string, string>, part: map<string, string>)
    requires part.Keys <= whole.Keys
    ensures |part| == |whole| <==> part.Keys == whole.Keys
  {
    assert |part| == |part.Keys| && |whole| == |whole.Keys|;
    if part.Keys != whole.Keys {
      var x :| x in whole.Keys && x !in part.Keys;
      SubsetSize(part.Keys, whole.Keys - {x});
    }
  }

  /**
   * A derived baseline is arm A outside the skill under test, which is arm B outside it too; the
   * arms do differ inside it, and arm A runs as it is exactly when it holds nothing there.
   */
  lemma BaselineIsBothArmsWithoutTheSkill(a: Corpus, b: Corpus)
    requires a.Valid() && b.Valid() && DeriveBaselineCorpus(a, b).Baseline?
    ensures var derived := DeriveBaselineCorpus(a, b);
      && SkillDirectory(derived.skillUnderTest).Some?
      && derived.files == WithoutUnit(a, derived.skillUnderTest) == WithoutUnit(b, derived.skillUnderTest)
      && (exists p :: UnitOf(p) == derived.skillUnderTest && LookUp(a, p) != LookUp(b, p))
      && (derived.kind == ArmA <==> forall p :: p in a.digests ==> UnitOf(p) != derived.skillUnderTest)
  {
    var units := DifferingUnits(a, b);
    var unit := units[0];
    DifferingUnitsListed(a, b);
    assert unit in units;
    forall p ensures LookUp(a, p) != LookUp(b, p) ==> UnitOf(p) in units {
    }
    assert units == [unit];
    hide DifferingUnits, SkillDirectory;
    SameOutside(a, b, unit);
    RestrictedSize(a.digests, WithoutUnit(a, unit));
  }

  lemma SameOutside(a: Corpus, b: Corpus, unit: string)
    requires forall p :: UnitOf(p) != unit ==> LookUp(a, p) == LookUp(b, p)
    ensures WithoutUnit(a, unit) == WithoutUnit(b, unit)
  {
    hide UnitOf;
    forall p
      ensures p in WithoutUnit(a, unit) <==> p in WithoutUnit(b, unit)
      ensures p in WithoutUnit(a, unit) && p in WithoutUnit(b, unit) ==> WithoutUnit(a, unit)[p] == WithoutUnit(b, unit)[p]
    {
      assert UnitOf(p) != unit ==> LookUp(a, p) == LookUp(b, p);
    }
  }

  /** Swapping the arms keeps the skill and the files, and the refusals. */
  lemma SwappedArmsAgree(a: Corpus, b: Corpus)
    requires a.Valid() && b.Valid()
    ensures var one, other := DeriveBaselineCorpus(a, b), DeriveBaselineCorpus(b, a);
      && (one.Baseline? <==> other.Baseline?)
      && (one.Baseline? ==> one.skillUnderTest == other.skillUnderTest && one.files == other.files)
      && (one.Refused? ==> one == other)
  {
    DifferingUnitsSymmetric(a, b);
    if DeriveBaselineCorpus(a, b).Baseline? {
      BaselineIsBothArmsWithoutTheSkill(a, b);
    }
  }

  lemma {:induction false} NameLengthCut(text: string)
    requires NameLength(text) < |text|
    ensures NameLength(text[..NameLength(text) + 1]) == NameLength(text)
  {
    var n := NameLength(text);
    if text[0] != '/' {
      NameLengthCut(text[1..]);
      assert text[..n + 1][1..] == text[1..][..n];
    }
  }

  /** A skill's directory is the directory of itself. */
  lemma DirectoryOfItself(path: string)
    requires SkillDirectory(path).Some?
    ensures SkillDirectory(SkillDirectory(path).value) == SkillDirectory(path)
  {
    var rest := path[|SKILLS|..];
    var n := NameLength(rest);
    NameLengthBound(rest);
    var unit := path[..|SKILLS| + n + 1];
    NameLengthCut(rest);
    assert path == SKILLS + rest;
    assert unit == SKILLS + rest[..n + 1];
    assert unit[|SKILLS|..] == rest[..n + 1];
    assert SKILLS <= unit;
    assert unit[..|SKILLS| + n + 1] == unit;
  }

  /** Every path the arms differ in lies in this skill's directory. */
  ghost predicate OnlyInSkill(a: Corpus, b: Corpus, unit: string) {
    SkillDirectory(unit) == Some(unit) && forall p :: LookUp(a, p) != LookUp(b, p) ==> unit <= p
  }

  lemma UnitsOfOneSkill(a: Corpus, b: Corpus, unit: string)
    requires a.Valid() && b.Valid() && OnlyInSkill(a, b, unit) && exists p :: LookUp(a, p) != LookUp(b, p)
    ensures DifferingUnits(a, b) == [unit]
  {
    DifferingUnitsListed(a, b);
    var units := DifferingUnits(a, b);
    hide DifferingUnits, LookUp;
    forall p | LookUp(a, p) != LookUp(b, p) ensures UnitOf(p) == unit {
      UnitIsDirectory(unit, p);
    }
    forall each ensures each in Elements(units) <==> each == unit {
      assert each in units <==> exists p :: LookUp(a, p) != LookUp(b, p) && UnitOf(p) == each;
    }
    SortedListUnique(units, [unit]);
  }

  /**
   * A baseline is derived exactly when the arms differ and every path they differ in lies in one
   * skill's directory, and then that skill is the one under test.
   */
  lemma DerivedExactlyWhen(a: Corpus, b: Corpus)
    requires a.Valid() && b.Valid()
    ensures DeriveBaselineCorpus(a, b).Baseline? <==>
      (exists p :: LookUp(a, p) != LookUp(b, p)) && exists unit :: OnlyInSkill(a, b, unit)
    ensures DeriveBaselineCorpus(a, b).Baseline? ==> OnlyInSkill(a, b, DeriveBaselineCorpus(a, b).skillUnderTest)
  {
    var units := DifferingUnits(a, b);
    DifferingUnitsListed(a, b);
    if DeriveBaselineCorpus(a, b).Baseline? {
      var unit := units[0];
      assert unit in units;
      var q :| LookUp(a, q) != LookUp(b, q) && UnitOf(q) == unit;
      DirectoryOfItself(if SkillDirectory(q).Some? then q else unit);
      forall p | LookUp(a, p) != LookUp(b, p) ensures unit <= p {
        assert UnitOf(p) in units;
        UnitBegins(p);
      }
      assert OnlyInSkill(a, b, unit);
    }
    if (exists p :: LookUp(a, p) != LookUp(b, p)) && exists unit :: OnlyInSkill(a, b, unit) {
      var unit :| OnlyInSkill(a, b, unit);
      UnitsOfOneSkill(a, b, unit);
    }
  }

  lemma OneOrMore(units: seq<string>)
    requires NoRepeats(units)
    ensures units == [] <==> forall u :: u !in units
    ensures |units| > 1 <==> exists u, v :: u in units && v in units && u != v
  {
    if units != [] {
      assert units[0] in units;
    }
    if |units| > 1 {
      assert units[1] in units && units[0] != units[1];
    }
  }

  /** The units of the paths the arms differ in. */
  ghost predicate UnitDiffers(a: Corpus, b: Corpus, unit: string) {
    exists p :: LookUp(a, p) != LookUp(b, p) && UnitOf(p) == unit
  }

  /**
   * A refusal says why: the arms differ nowhere, or in paths of two units, or in one path that no
   * skill's directory holds. It lists the units they differ in.
   */
  lemma RefusalSays(a: Corpus, b: Corpus)
    requires a.Valid() && b.Valid() && DeriveBaselineCorpus(a, b).Refused?
    ensures var refused := DeriveBaselineCorpus(a, b);
      && (refused.reason == Identical <==> forall p :: LookUp(a, p) == LookUp(b, p))
      && (refused.reason == SeveralUnits <==> exists u, v :: UnitDiffers(a, b, u) && UnitDiffers(a, b, v) && u != v)
      && (forall p :: refused.reason == NotASkill(p) <==>
            LookUp(a, p) != LookUp(b, p) && SkillDirectory(p).None? && forall q :: LookUp(a, q) != LookUp(b, q) ==> q == p)
      && forall unit :: unit in refused.differingUnits <==> UnitDiffers(a, b, unit)
  {
    var units := DifferingUnits(a, b);
    DifferingUnitsListed(a, b);
    OneOrMore(units);
    hide DifferingUnits, LookUp, SkillDirectory;
    assert forall unit :: unit in units <==> UnitDiffers(a, b, unit);
    forall p | LookUp(a, p) != LookUp(b, p) ensures UnitDiffers(a, b, UnitOf(p)) {
    }
    if units != [] {
      assert UnitDiffers(a, b, units[0]);
    }
    if |units| == 1 {
      OnePathOutside(a, b, units[0]);
    }
  }

  lemma OnePathOutside(a: Corpus, b: Corpus, unit: string)
    requires forall u :: UnitDiffers(a, b, u) <==> u == unit
    requires SkillDirectory(unit).None?
    ensures LookUp(a, unit) != LookUp(b, unit) && forall q :: LookUp(a, q) != LookUp(b, q) ==> q == unit
  {
    hide LookUp;
    forall q | LookUp(a, q) != LookUp(b, q) ensures q == unit {
      assert UnitDiffers(a, b, UnitOf(q));
      if SkillDirectory(q).Some? {
        DirectoryOfItself(q);
      }
    }
    assert UnitDiffers(a, b, unit);
  }

  lemma {:induction false} NameLengthOf(name: string, rest: string)
    requires '/' !in name
    ensures NameLength(name + "/" + rest) == |name|
  {
    var text := name + "/" + rest;
    if name == "" {
      assert text[0] == '/';
    } else {
      assert text[0] == name[0];
      assert text[1..] == name[1..] + "/" + rest;
      NameLengthOf(name[1..], rest);
    }
  }

  /** The path's skill directory is `skills/`, a name without slashes, and a slash, where the path begins so. */
  lemma SkillDirectoryMeans(path: string, name: string)
    requires '/' !in name
    ensures SkillDirectory(path) == Some(SKILLS + name + "/") <==> name != "" && SKILLS + name + "/" <= path
  {
    var directory := SKILLS + name + "/";
    if directory <= path {
      var rest := path[|SKILLS|..];
      assert SKILLS <= path;
      assert path == directory + path[|directory|..];
      assert rest == name + "/" + path[|directory|..];
      NameLengthOf(name, path[|directory|..]);
      assert path[..|directory|] == directory;
    }
    if SkillDirectory(path) == Some(directory) {
      var rest := path[|SKILLS|..];
      NameLengthBound(rest);
      assert directory == path[..|directory|];
    }
  }

  /** A path with no such beginning has no skill directory. */
  lemma NoSkillDirectory(path: string)
    ensures SkillDirectory(path).Some? ==> exists name :: '/' !in name && SkillDirectory(path) == Some(SKILLS + name + "/")
  {
    if SkillDirectory(path).Some? {
      var rest := path[|SKILLS|..];
      var n := NameLength(rest);
      NameLengthBound(rest);
      var name := rest[..n];
      assert path == SKILLS + rest;
      assert rest == name + [rest[n]] + rest[n + 1..];
      assert [rest[n]] == "/";
      assert path[..|SKILLS| + n + 1] == SKILLS + name + "/";
    }
  }
}
