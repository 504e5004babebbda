/** Which stages of a checkpoint chain can no longer be reproduced, and why. */
module CheckpointStaleness {
  import opened Wrappers
  import opened Collections
  import opened Ordering
  import opened ComparisonEvidence
  import opened CheckpointStorage
  import opened CorpusFileChanges

  datatype Settings = NoSettings | SettingsFile(path: string, sha256: string) | SettingsRefusal(reason: string)

  /** A stage's record; `files` are the corpus files it read. */
  datatype Link = Link(
    stage: string, model: string, effort: Option<string>, settingsFile: Option<HashedFile>, files: seq<HashedFile>)

  /**
   * What staleness is judged against. `current` holds the corpus now of each stage it still
   * feeds, and `settingsName` shows a settings path as its base name.
   */
  datatype Request = Request(
    model: string,
    effort: Option<string>,
    settings: Settings,
    rubricCauses: map<string, seq<string>>,
    current: map<string, StageCorpus>,
    settingsName: string -> string,
    collation: Collation)

  datatype Staleness = Staleness(
    stage: string, stale: bool, causes: seq<string>, changedFiles: seq<ChangedFile>, onlyCorpusFiles: bool)

  function OrNone(value: Option<string>): string {
    if value.Some? then value.value else "none"
  }

  function SettingsCause(record: Link, request: Request): string {
    var candidate := if request.settings.SettingsFile? then request.settings.path
      else if record.settingsFile.Some? then record.settingsFile.value.path else "none";
    "stage settings file " + request.settingsName(candidate) + " changed"
  }

  function RecordedSha(record: Link): Option<string> {
    if record.settingsFile.Some? then Some(record.settingsFile.value.sha256) else None
  }

  function RequestedSha(settings: Settings): Option<string> {
    if settings.SettingsFile? then Some(settings.sha256) else None
  }

  function KnobCauses(record: Link, request: Request): seq<string> {
    (if record.model != request.model then ["model " + record.model + " is now " + request.model] else [])
    + (if record.effort != request.effort
       then ["effort " + OrNone(record.effort) + " is now " + OrNone(request.effort)] else [])
    + (if request.settings.SettingsRefusal? then [request.settings.reason]
       else if RecordedSha(record) != RequestedSha(request.settings) then [SettingsCause(record, request)] else [])
  }

  /** The settings are not those the stage ran with: they cannot be read, or the file came, went or changed. */
  predicate SettingsChanged(record: Link, request: Request) {
    match request.settings
    case SettingsRefusal(_) => true
    case NoSettings => record.settingsFile.Some?
    case SettingsFile(_, sha256) => record.settingsFile.None? || record.settingsFile.value.sha256 != sha256
  }

  predicate EffortChanged(record: Link, request: Request) {
    record.effort != request.effort
  }

  /** A cause that says what an effort was and is now, an effort that was not given being none. */
  ghost predicate SaysEffort(cause: string, was: Option<string>, now: Option<string>) {
    && (was.Some? && now.Some? ==> cause == "effort " + was.value + " is now " + now.value)
    && (was.Some? && now.None? ==> cause == "effort " + was.value + " is now " + "none")
    && (was.None? && now.Some? ==> cause == "effort " + "none" + " is now " + now.value)
  }

  /** A cause that names the settings: why they cannot be read, or the file that changed, as requested or else as recorded. */
  ghost predicate SaysSettings(cause: string, record: Link, request: Request) {
    match request.settings
    case SettingsRefusal(reason) => cause == reason
    case SettingsFile(path, _) => cause == "stage settings file " + request.settingsName(path) + " changed"
    case NoSettings =>
      record.settingsFile.Some? && cause == "stage settings file " + request.settingsName(record.settingsFile.value.path) + " changed"
  }

  function OneIf(differs: bool): nat {
    if differs then 1 else 0
  }

  /** One cause for each knob that differs: the model, the effort and the settings, in that order, each saying from what to what. */
  lemma KnobCausesSay(record: Link, request: Request)
    ensures var causes := KnobCauses(record, request);
      var m, e, s := OneIf(record.model != request.model), OneIf(EffortChanged(record, request)),
        OneIf(SettingsChanged(record, request));
      && |causes| == m + e + s
      && (m == 1 ==> causes[0] == "model " + record.model + " is now " + request.model)
      && (e == 1 ==> SaysEffort(causes[m], record.effort, request.effort))
      && (s == 1 ==> SaysSettings(causes[m + e], record, request))
  {
  }

  method CollectKnobCauses(record: Link, request: Request) returns (causes: seq<string>)
    ensures causes == KnobCauses(record, request)
  {
    causes := [];
    if record.model != request.model {
      causes := causes + ["model " + record.model + " is now " + request.model];
    }
    if record.effort != request.effort {
      causes := causes + ["effort " + OrNone(record.effort) + " is now " + OrNone(request.effort)];
    }
    if request.settings.SettingsRefusal? {
      causes := causes + [request.settings.reason];
    } else if RecordedSha(record) != RequestedSha(request.settings) {
      causes := causes + [SettingsCause(record, request)];
    }
  }

  function Knobs(record: Link, request: Request): seq<string> {
    KnobCauses(record, request) + if record.stage in request.rubricCauses then request.rubricCauses[record.stage] else []
  }

  /** Whether the comparison with the stage's corpus now can be made, or there is none to make. */
  predicate Readable(record: Link, request: Request) {
    record.stage in request.current ==>
      StageCorpusChanges(record.files, request.current[record.stage], request.collation).Ok?
  }

  function CorpusOf(record: Link, request: Request): Corpus {
    if record.stage !in request.current then Corpus([], [])
    else
      var corpus := StageCorpusChanges(record.files, request.current[record.stage], request.collation);
      if corpus.Ok? then corpus.value else Corpus([], [])
  }

  method CompareCorpus(record: Link, request: Request) returns (r: Result<Corpus>)
    ensures r.Ok? <==> Readable(record, request)
    ensures r.Ok? ==> r.value == CorpusOf(record, request)
  {
    if record.stage !in request.current {
      return Ok(Corpus([], []));
    }
    match request.current[record.stage]
    case RefusedCorpus(reason) =>
      r := Ok(Corpus([reason], []));
    case Hashed(files) =>
      var changed := CompareCorpusFiles(record.files, files, request.collation);
      r := if changed.Ok? then Ok(Corpus(SortStrings(Map(changed.value, CauseOf)), changed.value)) else Err(changed.error);
  }

  predicate ReadChangedFilesOnly(corpus: Corpus) {
    |corpus.changedFiles| > 0 && |corpus.causes| == |corpus.changedFiles|
  }

  function UpstreamCause(stage: string): string {
    "upstream stage " + stage + " is stale"
  }

  function StageStaleness(record: Link, request: Request, upstream: Option<string>, upstreamOnlyCorpusFiles: bool): Staleness {
    var knobs := Knobs(record, request);
    var corpus := CorpusOf(record, request);
    var causes := (if upstream.None? then [] else [UpstreamCause(upstream.value)]) + knobs + corpus.causes;
    Staleness(
      record.stage, |causes| > 0, causes, corpus.changedFiles,
      |knobs| == 0 && upstreamOnlyCorpusFiles && ReadChangedFilesOnly(corpus))
  }

  method JudgeStage(record: Link, request: Request, upstream: Option<string>, upstreamOnlyCorpusFiles: bool)
    returns (r: Result<Staleness>)
    ensures r.Ok? <==> Readable(record, request)
    ensures r.Ok? ==> r.value == StageStaleness(record, request, upstream, upstreamOnlyCorpusFiles)
  {
    hide KnobCauses, CorpusOf, Readable;
    var knobs := CollectKnobCauses(record, request);
    if record.stage in request.rubricCauses {
      knobs := knobs + request.rubricCauses[record.stage];
    }
    var corpus := CompareCorpus(record, request);
    if corpus.Err? {
      return Err(corpus.error);
    }
    assert knobs == Knobs(record, request);
    var causes := (if upstream.None? then [] else [UpstreamCause(upstream.value)]) + knobs + corpus.value.causes;
    r := Ok(Staleness(
      record.stage, |causes| > 0, causes, corpus.value.changedFiles,
      |knobs| == 0 && upstreamOnlyCorpusFiles && ReadChangedFilesOnly(corpus.value)));
  }

  /** A stage's own causes, whatever its upstream. */
  predicate HasOwnCauses(record: Link, request: Request) {
    Knobs(record, request) != [] || CorpusOf(record, request).causes != []
  }

  predicate OwnCorpusOnly(record: Link, request: Request) {
    Knobs(record, request) == [] && ReadChangedFilesOnly(CorpusOf(record, request))
  }

  /** The first stage of the chain with causes of its own. */
  function FirstStale(chain: seq<Link>, request: Request): Option<nat> {
    if chain == [] then None
    else
      var before := FirstStale(chain[..|chain| - 1], request);
      if before.Some? then before
      else if HasOwnCauses(chain[|chain| - 1], request) then Some(|chain| - 1) else None
  }

  /** The stage at `j` has causes of its own and none before it has. */
  ghost predicate IsFirst(chain: seq<Link>, request: Request, j: nat)
    requires j < |chain|
  {
    HasOwnCauses(chain[j], request) && forall k :: 0 <= k < j ==> !HasOwnCauses(chain[k], request)
  }

  lemma {:induction false} FirstStaleMeans(chain: seq<Link>, request: Request)
    ensures var first := FirstStale(chain, request);
      if first.Some? then first.value < |chain| && IsFirst(chain, request, first.value)
      else forall j :: 0 <= j < |chain| ==> !HasOwnCauses(chain[j], request)
  {
    hide HasOwnCauses;
    if chain != [] {
      var n := |chain| - 1;
      FirstStaleMeans(chain[..n], request);
      assert forall j :: 0 <= j < n ==> chain[..n][j] == chain[j];
    }
  }

  /** The same, read off the whole chain. */
  lemma FirstBefore(chain: seq<Link>, request: Request, i: nat)
    requires i <= |chain|
    ensures var first := FirstStale(chain[..i], request);
      if first.Some? then first.value < i && IsFirst(chain, request, first.value)
      else forall j :: 0 <= j < i ==> !HasOwnCauses(chain[j], request)
  {
    hide HasOwnCauses;
    FirstStaleMeans(chain[..i], request);
    assert forall j :: 0 <= j < i ==> chain[..i][j] == chain[j];
  }

  function UpstreamBefore(chain: seq<Link>, request: Request, i: nat): Option<string>
    requires i <= |chain|
  {
    FirstStaleMeans(chain[..i], request);
    var first := FirstStale(chain[..i], request);
    if first.None? then None else Some(chain[first.value].stage)
  }

  predicate CorpusOnlyBefore(chain: seq<Link>, request: Request, i: nat)
    requires i <= |chain|
  {
    FirstStaleMeans(chain[..i], request);
    var first := FirstStale(chain[..i], request);
    first.None? || OwnCorpusOnly(chain[first.value], request)
  }

  /** Each stage's result, from the first stale stage before it. */
  function StalenessAt(chain: seq<Link>, request: Request, i: nat): Staleness
    requires i < |chain|
  {
    StageStaleness(chain[i], request, UpstreamBefore(chain, request, i), CorpusOnlyBefore(chain, request, i))
  }

  lemma StageReads(record: Link, request: Request, upstream: Option<string>, only: bool)
    ensures var result := StageStaleness(record, request, upstream, only);
      && (result.stale <==> upstream.Some? || HasOwnCauses(record, request))
      && (result.onlyCorpusFiles <==> only && OwnCorpusOnly(record, request))
  {
    hide Knobs, CorpusOf;
  }

  /** What the walk carries to the next stage. */
  lemma CarriedOn(chain: seq<Link>, request: Request, i: nat)
    requires i < |chain|
    ensures var result := StalenessAt(chain, request, i);
      var upstream := UpstreamBefore(chain, request, i);
      && UpstreamBefore(chain, request, i + 1) == (if result.stale && upstream.None? then Some(chain[i].stage) else upstream)
      && CorpusOnlyBefore(chain, request, i + 1)
         == (if result.stale && upstream.None? then result.onlyCorpusFiles else CorpusOnlyBefore(chain, request, i))
  {
    hide HasOwnCauses, OwnCorpusOnly, StageStaleness;
    assert chain[..i + 1][..i] == chain[..i];
    StageReads(chain[i], request, UpstreamBefore(chain, request, i), CorpusOnlyBefore(chain, request, i));
    FirstBefore(chain, request, i);
  }

  /** A walk down the chain that carries the first stale stage along, refused where a corpus cannot be compared. */
  method DeriveStaleness(chain: seq<Link>, request: Request) returns (r: Result<seq<Staleness>>)
    ensures r.Ok? <==> forall i :: 0 <= i < |chain| ==> Readable(chain[i], request)
    ensures r.Ok? ==> |r.value| == |chain| && forall i :: 0 <= i < |chain| ==> r.value[i] == StalenessAt(chain, request, i)
  {
    hide StageStaleness, UpstreamBefore, CorpusOnlyBefore, Readable;
    var staleness: seq<Staleness> := [];
    var staleUpstream: Option<string> := None;
    var upstreamOnlyCorpusFiles := true;
    NothingBefore(chain, request);
    for i := 0 to |chain|
      invariant |staleness| == i
      invariant forall j :: 0 <= j < i ==> Readable(chain[j], request) && staleness[j] == StalenessAt(chain, request, j)
      invariant staleUpstream == UpstreamBefore(chain, request, i)
      invariant upstreamOnlyCorpusFiles == CorpusOnlyBefore(chain, request, i)
    {
      var result := JudgeStage(chain[i], request, staleUpstream, upstreamOnlyCorpusFiles);
      if result.Err? {
        return Err(result.error);
      }
      staleness := staleness + [result.value];
      CarriedOn(chain, request, i);
      if result.value.stale && staleUpstream.None? {
        staleUpstream := Some(chain[i].stage);
        upstreamOnlyCorpusFiles := result.value.onlyCorpusFiles;
      }
    }
    r := Ok(staleness);
  }

  lemma NothingBefore(chain: seq<Link>, request: Request)
    ensures UpstreamBefore(chain, request, 0) == None && CorpusOnlyBefore(chain, request, 0)
  {
  }

  /** A stage is stale exactly when it or a stage before it has causes of its own. */
  lemma StaleMeans(chain: seq<Link>, request: Request, i: nat)
    requires i < |chain|
    ensures StalenessAt(chain, request, i).stale <==> exists j :: 0 <= j <= i && HasOwnCauses(chain[j], request)
  {
    hide HasOwnCauses, StageStaleness;
    StageReads(chain[i], request, UpstreamBefore(chain, request, i), CorpusOnlyBefore(chain, request, i));
    FirstBefore(chain, request, i);
  }

  lemma OneFirst(chain: seq<Link>, request: Request, i: nat, first: nat)
    requires first < |chain| && i <= |chain| && IsFirst(chain, request, first)
    ensures FirstStale(chain[..i], request) == if first < i then Some(first) else None
  {
    hide HasOwnCauses, FirstStale;
    FirstBefore(chain, request, i);
  }

  /** Every stage after the first stale one names it as its upstream, first among its causes; no other stage names any. */
  lemma UpstreamNamed(chain: seq<Link>, request: Request, i: nat, first: nat)
    requires first < |chain| && i < |chain| && IsFirst(chain, request, first)
    ensures var own := Knobs(chain[i], request) + CorpusOf(chain[i], request).causes;
      StalenessAt(chain, request, i).causes
        == if first < i then [UpstreamCause(chain[first].stage)] + own else own
  {
    OneFirst(chain, request, i, first);
    hide Knobs, CorpusOf, HasOwnCauses, OwnCorpusOnly, UpstreamCause, ReadChangedFilesOnly;
    var knobs, corpus := Knobs(chain[i], request), CorpusOf(chain[i], request).causes;
    var upstream := [UpstreamCause(chain[first].stage)];
    assert upstream + knobs + corpus == upstream + (knobs + corpus);
    assert [] + knobs + corpus == knobs + corpus;
  }

  lemma OnlyCorpusFilesCarried(chain: seq<Link>, request: Request, i: nat)
    requires i < |chain|
    ensures StalenessAt(chain, request, i).onlyCorpusFiles <==>
      && OwnCorpusOnly(chain[i], request)
      && forall j :: 0 <= j < i && IsFirst(chain, request, j) ==> OwnCorpusOnly(chain[j], request)
  {
    hide HasOwnCauses, StageStaleness, OwnCorpusOnly;
    StageReads(chain[i], request, UpstreamBefore(chain, request, i), CorpusOnlyBefore(chain, request, i));
    FirstBefore(chain, request, i);
    forall j | 0 <= j < i && IsFirst(chain, request, j) ensures FirstStale(chain[..i], request) == Some(j) {
      OneFirst(chain, request, i, j);
    }
  }

  // ---- the same, read off the records

  /** The stage would run again with the model, effort and settings it ran with, under the same rubrics. */
  predicate SameKnobs(record: Link, request: Request) {
    && record.model == request.model && record.effort == request.effort
    && !SettingsChanged(record, request)
    && (record.stage in request.rubricCauses ==> request.rubricCauses[record.stage] == [])
  }

  /** The stage's corpus was hashed, and is not the files the stage read. */
  predicate FilesChanged(record: Link, request: Request) {
    && record.stage in request.current && request.current[record.stage].Hashed?
    && ManifestOf(record.files) != ManifestOf(request.current[record.stage].files)
  }

  predicate CorpusRefused(record: Link, request: Request) {
    record.stage in request.current && request.current[record.stage].RefusedCorpus?
  }

  lemma CorpusMeans(record: Link, request: Request)
    requires Readable(record, request)
    ensures CorpusOf(record, request).causes != [] <==> FilesChanged(record, request) || CorpusRefused(record, request)
    ensures ReadChangedFilesOnly(CorpusOf(record, request)) <==> FilesChanged(record, request)
  {
    if record.stage in request.current && request.current[record.stage].Hashed? {
      var files := request.current[record.stage].files;
      CausesAreTheFiles(record.files, files, request.collation);
      NoChangeMeansOneManifest(record.files, files, request.collation);
      hide FileChanges, ManifestOf, SortStrings, PathsDistinct;
    }
  }

  /**
   * A stage has causes of its own exactly when a knob changed, its corpus cannot be hashed, or its
   * corpus is not the files it read; only the last of these stales it by corpus files alone.
   */
  lemma OwnCausesMean(record: Link, request: Request)
    requires Readable(record, request)
    ensures HasOwnCauses(record, request) <==>
      !SameKnobs(record, request) || CorpusRefused(record, request) || FilesChanged(record, request)
    ensures OwnCorpusOnly(record, request) <==> SameKnobs(record, request) && FilesChanged(record, request)
  {
    CorpusMeans(record, request);
    assert Knobs(record, request) == [] <==> SameKnobs(record, request);
    hide Knobs, CorpusOf, FilesChanged, CorpusRefused, SameKnobs, ReadChangedFilesOnly;
  }

  /**
   * Only corpus files stale a stage exactly when no knob changed, its corpus was hashed and is not
   * the files it read, and the first stale stage before it, if any, is alike. Its own causes are
   * then those files, one each.
   */
  lemma OnlyCorpusFilesMeans(chain: seq<Link>, request: Request, i: nat)
    requires i < |chain| && forall j :: 0 <= j < |chain| ==> Readable(chain[j], request)
    ensures StalenessAt(chain, request, i).onlyCorpusFiles <==>
      && SameKnobs(chain[i], request) && FilesChanged(chain[i], request)
      && forall j :: 0 <= j < i && IsFirst(chain, request, j) ==>
           SameKnobs(chain[j], request) && FilesChanged(chain[j], request)
    ensures StalenessAt(chain, request, i).onlyCorpusFiles ==>
      ChangesListed(chain[i], request, StalenessAt(chain, request, i).changedFiles)
  {
    OnlyCorpusFilesCarried(chain, request, i);
    forall j | 0 <= j < |chain|
      ensures OwnCorpusOnly(chain[j], request) <==> SameKnobs(chain[j], request) && FilesChanged(chain[j], request)
    {
      OwnCausesMean(chain[j], request);
    }
    assert StalenessAt(chain, request, i).changedFiles == CorpusOf(chain[i], request).changedFiles;
    if FilesChanged(chain[i], request) {
      ChangesAreListed(chain[i], request);
    }
    hide OwnCorpusOnly, SameKnobs, FilesChanged, StalenessAt, HasOwnCauses, CorpusOf, ChangesListed, Readable;
  }

  /** The files are exactly those the record and the corpus now disagree on, and the corpus causes name each once. */
  ghost predicate ChangesListed(record: Link, request: Request, files: seq<ChangedFile>) {
    && record.stage in request.current && request.current[record.stage].Hashed?
    && (forall file :: file in files <==>
          DifferenceAt(ManifestOf(record.files), ManifestOf(request.current[record.stage].files), file.path) == Some(file.change))
    && multiset(CorpusOf(record, request).causes) == multiset(Map(files, CauseOf))
  }

  lemma ChangesAreListed(record: Link, request: Request)
    requires Readable(record, request) && FilesChanged(record, request)
    ensures ChangesListed(record, request, CorpusOf(record, request).changedFiles)
  {
    var files := request.current[record.stage].files;
    CausesAreTheFiles(record.files, files, request.collation);
    FileChangesMean(record.files, files, request.collation);
    hide FileChanges, ManifestOf, SortStrings, PathsDistinct, DifferenceAt;
  }

  /** What the field's documentation says: no stale stage up to this one has anything but changed files. */
  ghost predicate AllCorpusOnly(chain: seq<Link>, request: Request, i: nat)
    requires i < |chain|
  {
    OwnCorpusOnly(chain[i], request)
    && forall j :: 0 <= j < i && HasOwnCauses(chain[j], request) ==> OwnCorpusOnly(chain[j], request)
  }

  /**
   * Where the field is set it meets that documentation exactly when no stage between the first
   * stale one and this one has causes of its own that are not changed files; where it is not
   * set the documentation does not hold either.
   */
  lemma OnlyCorpusFilesAgainstItsDocumentation(chain: seq<Link>, request: Request, i: nat)
    requires i < |chain|
    ensures AllCorpusOnly(chain, request, i) ==> StalenessAt(chain, request, i).onlyCorpusFiles
    ensures StalenessAt(chain, request, i).onlyCorpusFiles ==>
      (AllCorpusOnly(chain, request, i) <==>
        forall k :: 0 <= k < i && HasOwnCauses(chain[k], request) && !IsFirst(chain, request, k) ==>
          OwnCorpusOnly(chain[k], request))
  {
    hide HasOwnCauses, OwnCorpusOnly, StalenessAt;
    OnlyCorpusFilesCarried(chain, request, i);
  }

  /** Three stages: the first and last read a file that changed, the middle one ran on another model. */
  ghost function HiddenModelChange(was: string, now: string): (seq<Link>, Request) {
    var read, holds := [HashedFile("f", was)], Hashed([HashedFile("f", now)]);
    ([Link("a", "m", None, None, read), Link("b", "old", None, None, []), Link("c", "m", None, None, read)],
     Request("m", None, NoSettings, map[], map["a" := holds, "c" := holds], path => path, (x, y) => true))
  }

  lemma OneFile(sha256: string)
    ensures ManifestOf([HashedFile("f", sha256)]) == map["f" := sha256]
  {
    assert [HashedFile("f", sha256)][..0] == [];
  }

  lemma ModelChangeHidden(was: string, now: string)
    requires was != now
    ensures var (chain, request) := HiddenModelChange(was, now);
      && (forall i :: 0 <= i < |chain| ==> Readable(chain[i], request))
      && StalenessAt(chain, request, 2).onlyCorpusFiles && !AllCorpusOnly(chain, request, 2)
  {
    var (chain, request) := HiddenModelChange(was, now);
    OneFile(was);
    OneFile(now);
    assert map["f" := was]["f"] != map["f" := now]["f"];
    assert forall i :: 0 <= i < |chain| ==> Readable(chain[i], request);
    assert FilesChanged(chain[0], request) && FilesChanged(chain[2], request);
    OwnCausesMean(chain[0], request);
    OwnCausesMean(chain[1], request);
    OwnCausesMean(chain[2], request);
    hide Readable, HasOwnCauses, OwnCorpusOnly, FilesChanged, StalenessAt, CorpusOf, Knobs;
    OnlyCorpusFilesMeans(chain, request, 2);
  }
}
