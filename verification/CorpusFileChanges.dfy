/** How the corpus files a record read differ from a stage's corpus now. */
module CorpusFileChanges {
  import opened Wrappers
  import opened Collections
  import opened Ordering
  import opened ComparisonEvidence
  import opened CheckpointStorage

  datatype Change = Changed | Added | Removed

  datatype ChangedFile = ChangedFile(path: string, change: Change)

  /** A stage's corpus now: its files, or the reason it could not be hashed. */
  datatype StageCorpus = Hashed(files: seq<HashedFile>) | RefusedCorpus(reason: string)

  /** How one stage's corpus compares: its causes and the files that changed. */
  datatype Corpus = Corpus(causes: seq<string>, changedFiles: seq<ChangedFile>)

  function LeftChange(file: HashedFile, right: Manifest): seq<ChangedFile> {
    if file.path !in right then [ChangedFile(file.path, Removed)]
    else if right[file.path] == file.sha256 then []
    else [ChangedFile(file.path, Changed)]
  }

  function LeftChanges(left: seq<HashedFile>, right: Manifest): seq<ChangedFile> {
    if left == [] then []
    else LeftChanges(left[..|left| - 1], right) + LeftChange(left[|left| - 1], right)
  }

  /** The files only the right side has, in its order. */
  function AddedFiles(left: Manifest, right: seq<HashedFile>): seq<ChangedFile> {
    if right == [] then []
    else
      var last := right[|right| - 1];
      AddedFiles(left, right[..|right| - 1]) + if last.path in left then [] else [ChangedFile(last.path, Added)]
  }

  function InsertChange(file: ChangedFile, sorted: seq<ChangedFile>, collation: Collation): seq<ChangedFile> {
    if sorted == [] then [file]
    else if collation(file.path, sorted[0].path) then [file] + sorted
    else [sorted[0]] + InsertChange(file, sorted[1..], collation)
  }

  function SortedChanges(files: seq<ChangedFile>, collation: Collation): seq<ChangedFile> {
    if files == [] then [] else InsertChange(files[0], SortedChanges(files[1..], collation), collation)
  }

  function FileChanges(left: seq<HashedFile>, right: seq<HashedFile>, collation: Collation): seq<ChangedFile> {
    SortedChanges(LeftChanges(left, ManifestOf(right)) + AddedFiles(ManifestOf(left), right), collation)
  }

  function Word(change: Change): string {
    match change
    case Changed => "changed"
    case Added => "added"
    case Removed => "removed"
  }

  function CauseOf(file: ChangedFile): string {
    file.path + " " + Word(file.change)
  }

  /** A refused corpus is a cause without a file; two lists of files with distinct paths are compared. */
  function StageCorpusChanges(recorded: seq<HashedFile>, current: StageCorpus, collation: Collation): Result<Corpus> {
    match current
    case RefusedCorpus(reason) => Ok(Corpus([reason], []))
    case Hashed(files) =>
      if !PathsDistinct(recorded) || !PathsDistinct(files) then Err("Duplicate corpus path")
      else
        var changed := FileChanges(recorded, files, collation);
        Ok(Corpus(SortStrings(Map(changed, CauseOf)), changed))
  }

  method UniquePaths(files: seq<HashedFile>) returns (unique: bool)
    ensures unique <==> PathsDistinct(files)
  {
    var paths: set<string> := {};
    for i := 0 to |files|
      invariant paths == set j | 0 <= j < i :: files[j].path
      invariant PathsDistinct(files[..i])
    {
      if files[i].path in paths {
        return false;
      }
      paths := paths + {files[i].path};
    }
    assert files[..|files|] == files;
    unique := true;
  }

  /** Walks the left side, taking each file found on the right off it. */
  method WalkLeft(left: seq<HashedFile>, right: seq<HashedFile>) returns (changes: seq<ChangedFile>, rightByPath: Manifest)
    requires PathsDistinct(left)
    ensures changes == LeftChanges(left, ManifestOf(right))
    ensures rightByPath == ManifestOf(right) - ManifestOf(left).Keys
  {
    hide ManifestOf, PathsDistinct, LeftChanges;
    rightByPath := ManifestOf(right);
    changes := [];
    NothingWalked(left, right);
    for i := 0 to |left|
      invariant changes == LeftChanges(left[..i], ManifestOf(right))
      invariant rightByPath == ManifestOf(right) - ManifestOf(left[..i]).Keys
    {
      LeftStep(left, i, right);
      if left[i].path !in rightByPath {
        changes := changes + [ChangedFile(left[i].path, Removed)];
      } else {
        if rightByPath[left[i].path] != left[i].sha256 {
          changes := changes + [ChangedFile(left[i].path, Changed)];
        }
        rightByPath := rightByPath - {left[i].path};
      }
    }
    assert left[..|left|] == left;
  }

  /** Every file two lists disagree on: those met on the left, then what is left of the right. */
  method CompareCorpusFiles(left: seq<HashedFile>, right: seq<HashedFile>, collation: Collation)
    returns (r: Result<seq<ChangedFile>>)
    ensures r.Ok? <==> PathsDistinct(left) && PathsDistinct(right)
    ensures r.Ok? ==> r.value == FileChanges(left, right, collation)
  {
    hide ManifestOf, PathsDistinct, LeftChanges, AddedFiles, SortedChanges;
    var leftUnique := UniquePaths(left);
    var rightUnique := UniquePaths(right);
    if !leftUnique || !rightUnique {
      return Err("Duplicate corpus path");
    }
    var changes, rightByPath := WalkLeft(left, right);
    ghost var found := changes;
    NothingWalked(left, right);
    for i := 0 to |right|
      invariant changes == found + AddedFiles(ManifestOf(left), right[..i])
    {
      AddedStep(ManifestOf(left), right, i);
      if right[i].path in rightByPath {
        changes := changes + [ChangedFile(right[i].path, Added)];
      }
    }
    assert right[..|right|] == right;
    r := Ok(SortedChanges(changes, collation));
  }

  lemma NothingWalked(left: seq<HashedFile>, right: seq<HashedFile>)
    ensures LeftChanges(left[..0], ManifestOf(right)) == [] && AddedFiles(ManifestOf(left), right[..0]) == []
    ensures ManifestOf(right) - ManifestOf(left[..0]).Keys == ManifestOf(right)
  {
    assert ManifestOf(left[..0]).Keys == {};
  }

  lemma LeftStep(left: seq<HashedFile>, i: nat, right: seq<HashedFile>)
    requires PathsDistinct(left) && i < |left|
    ensures LeftChanges(left[..i + 1], ManifestOf(right))
         == LeftChanges(left[..i], ManifestOf(right)) + LeftChange(left[i], ManifestOf(right))
    ensures ManifestOf(left[..i + 1]).Keys == ManifestOf(left[..i]).Keys + {left[i].path}
    ensures left[i].path !in ManifestOf(left[..i])
  {
    assert left[..i + 1] == left[..i] + [left[i]];
    assert left[..i + 1][..i] == left[..i];
    PrefixDistinct(left, i + 1);
    hide PathsDistinct;
    ManifestSnoc(left[..i], left[i]);
  }

  lemma AddedStep(left: Manifest, right: seq<HashedFile>, i: nat)
    requires PathsDistinct(right) && i < |right|
    ensures right[i].path in ManifestOf(right)
    ensures AddedFiles(left, right[..i + 1])
         == AddedFiles(left, right[..i]) + if right[i].path in left then [] else [ChangedFile(right[i].path, Added)]
  {
    ManifestKeys(right);
    assert right[..i + 1][..i] == right[..i];
  }

  lemma PrefixDistinct(files: seq<HashedFile>, i: nat)
    requires PathsDistinct(files) && i <= |files|
    ensures PathsDistinct(files[..i])
  {
  }

  // ---- what the changes are

  /** How two manifests differ at a path. */
  function DifferenceAt(left: Manifest, right: Manifest, path: string): Option<Change> {
    if path in left && path !in right then Some(Removed)
    else if path !in left && path in right then Some(Added)
    else if path in left && path in right && left[path] != right[path] then Some(Changed)
    else None
  }

  lemma {:induction false} InsertChangeKeeps(file: ChangedFile, sorted: seq<ChangedFile>, collation: Collation)
    ensures multiset(InsertChange(file, sorted, collation)) == multiset{file} + multiset(sorted)
  {
    if sorted != [] {
      assert sorted == [sorted[0]] + sorted[1..];
      if !collation(file.path, sorted[0].path) {
        InsertChangeKeeps(file, sorted[1..], collation);
      }
    }
  }

  lemma {:induction false} SortedChangesKeep(files: seq<ChangedFile>, collation: Collation)
    ensures multiset(SortedChanges(files, collation)) == multiset(files)
  {
    if files != [] {
      SortedChangesKeep(files[1..], collation);
      InsertChangeKeeps(files[0], SortedChanges(files[1..], collation), collation);
      assert files == [files[0]] + files[1..];
    }
  }

  ghost predicate FromLeft(file: ChangedFile, left: Manifest, right: Manifest) {
    file.path in left && DifferenceAt(left, right, file.path) == Some(file.change)
  }

  lemma {:induction false} LeftChangesMean(left: seq<HashedFile>, right: Manifest)
    requires PathsDistinct(left)
    ensures forall file :: file in LeftChanges(left, right) <==> FromLeft(file, ManifestOf(left), right)
    ensures forall i, j :: 0 <= i < j < |LeftChanges(left, right)| ==>
      LeftChanges(left, right)[i].path != LeftChanges(left, right)[j].path
  {
    if left != [] {
      var n := |left| - 1;
      var front, last := left[..n], left[n];
      assert left == front + [last];
      PrefixDistinct(left, n);
      LeftChangesMean(front, right);
      ManifestSnoc(front, last);
      var before, here := LeftChanges(front, right), LeftChange(last, right);
      hide LeftChanges, ManifestOf, PathsDistinct;
      assert LeftChanges(left, right) == before + here;
      forall k | 0 <= k < |before| ensures before[k].path != last.path {
        assert before[k] in before;
      }
      forall file ensures file in before + here <==> FromLeft(file, ManifestOf(left), right) {
        assert file in before + here <==> file in before || file in here;
      }
    }
  }

  lemma {:induction false} AddedFilesMean(left: Manifest, right: seq<HashedFile>)
    requires PathsDistinct(right)
    ensures forall file :: file in AddedFiles(left, right) <==>
      file.change == Added && file.path !in left && file.path in ManifestOf(right)
    ensures forall i, j :: 0 <= i < j < |AddedFiles(left, right)| ==>
      AddedFiles(left, right)[i].path != AddedFiles(left, right)[j].path
  {
    if right != [] {
      var n := |right| - 1;
      var front, last := right[..n], right[n];
      assert right == front + [last];
      PrefixDistinct(right, n);
      AddedFilesMean(left, front);
      ManifestSnoc(front, last);
      var before := AddedFiles(left, front);
      var here := if last.path in left then [] else [ChangedFile(last.path, Added)];
      assert AddedFiles(left, right) == before + here;
      hide AddedFiles, ManifestOf, PathsDistinct;
      forall k | 0 <= k < |before| ensures before[k].path != last.path {
        assert before[k] in before;
      }
      forall file ensures file in before + here <==> file in before || file in here {
      }
    }
  }

  /** The files listed are exactly those two corpora disagree on, with how. */
  lemma FileChangesMean(left: seq<HashedFile>, right: seq<HashedFile>, collation: Collation)
    requires PathsDistinct(left) && PathsDistinct(right)
    ensures forall file :: file in FileChanges(left, right, collation) <==>
      DifferenceAt(ManifestOf(left), ManifestOf(right), file.path) == Some(file.change)
  {
    LeftChangesMean(left, ManifestOf(right));
    AddedFilesMean(ManifestOf(left), right);
    var first, second := LeftChanges(left, ManifestOf(right)), AddedFiles(ManifestOf(left), right);
    SortedChangesKeep(first + second, collation);
    hide LeftChanges, AddedFiles, SortedChanges, ManifestOf, PathsDistinct;
    forall file ensures file in FileChanges(left, right, collation) <==> file in first || file in second {
      assert file in FileChanges(left, right, collation) <==> file in multiset(first + second);
    }
  }

  /** None is listed exactly when the corpora are one manifest. */
  lemma NoChangeMeansOneManifest(left: seq<HashedFile>, right: seq<HashedFile>, collation: Collation)
    requires PathsDistinct(left) && PathsDistinct(right)
    ensures FileChanges(left, right, collation) == [] <==> ManifestOf(left) == ManifestOf(right)
  {
    FileChangesMean(left, right, collation);
    var changes, l, r := FileChanges(left, right, collation), ManifestOf(left), ManifestOf(right);
    hide FileChanges, ManifestOf, PathsDistinct;
    if changes != [] {
      assert changes[0] in changes;
    } else {
      forall path ensures DifferenceAt(l, r, path) == None {
        assert ChangedFile(path, Changed) !in changes;
        assert ChangedFile(path, Added) !in changes;
        assert ChangedFile(path, Removed) !in changes;
      }
      assert forall path :: path in l <==> path in r by {
        forall path ensures path in l <==> path in r {
          assert DifferenceAt(l, r, path) == None;
        }
      }
      forall path | path in l ensures l[path] == r[path] {
        assert DifferenceAt(l, r, path) == None;
      }
    }
  }

  /** Each changed file is one cause, worded by how it changed, and there is no other. */
  lemma CausesAreTheFiles(recorded: seq<HashedFile>, files: seq<HashedFile>, collation: Collation)
    requires PathsDistinct(recorded) && PathsDistinct(files)
    ensures var corpus := StageCorpusChanges(recorded, Hashed(files), collation).value;
      && corpus.changedFiles == FileChanges(recorded, files, collation)
      && multiset(corpus.causes) == multiset(Map(corpus.changedFiles, CauseOf))
      && |corpus.causes| == |corpus.changedFiles|
  {
    SortKeepsAll(Map(FileChanges(recorded, files, collation), CauseOf));
    hide FileChanges, SortStrings, PathsDistinct;
  }

  ghost predicate InPathOrder(files: seq<ChangedFile>, collation: Collation) {
    forall i, j :: 0 <= i < j < |files| ==> collation(files[i].path, files[j].path)
  }

  lemma {:induction false} InsertChangeMember(file: ChangedFile, sorted: seq<ChangedFile>, collation: Collation)
    ensures forall f :: f in InsertChange(file, sorted, collation) <==> f == file || f in sorted
  {
    if sorted != [] && !collation(file.path, sorted[0].path) {
      InsertChangeMember(file, sorted[1..], collation);
      assert sorted == [sorted[0]] + sorted[1..];
    }
  }

  lemma {:induction false} InsertChangeInOrder(file: ChangedFile, sorted: seq<ChangedFile>, collation: Collation)
    requires InPathOrder(sorted, collation) && IsTotalOrder(collation)
    ensures InPathOrder(InsertChange(file, sorted, collation), collation)
  {
    if sorted != [] && !collation(file.path, sorted[0].path) {
      InsertChangeInOrder(file, sorted[1..], collation);
      InsertChangeMember(file, sorted[1..], collation);
      var rest := InsertChange(file, sorted[1..], collation);
      forall k | 0 <= k < |rest| ensures collation(sorted[0].path, rest[k].path) {
        assert rest[k] in rest;
        if rest[k] != file {
          var j :| 0 <= j < |sorted[1..]| && sorted[1..][j] == rest[k];
          assert sorted[j + 1] == rest[k];
        }
      }
    }
  }

  lemma {:induction false} SortedChangesInOrder(files: seq<ChangedFile>, collation: Collation)
    requires IsTotalOrder(collation)
    ensures InPathOrder(SortedChanges(files, collation), collation)
  {
    if files != [] {
      SortedChangesInOrder(files[1..], collation);
      InsertChangeInOrder(files[0], SortedChanges(files[1..], collation), collation);
    }
  }

  /** The files that changed are listed by path, and the causes by their text. */
  lemma ChangesInOrder(recorded: seq<HashedFile>, current: StageCorpus, collation: Collation)
    requires IsTotalOrder(collation) && StageCorpusChanges(recorded, current, collation).Ok?
    ensures var corpus := StageCorpusChanges(recorded, current, collation).value;
      InPathOrder(corpus.changedFiles, collation) && Ascending(corpus.causes)
  {
    if current.Hashed? {
      SortedChangesInOrder(LeftChanges(recorded, ManifestOf(current.files)) + AddedFiles(ManifestOf(recorded), current.files), collation);
      SortKeeps(Map(FileChanges(recorded, current.files, collation), CauseOf));
    }
  }
}
