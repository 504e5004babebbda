/** Whether a checkpoint's snapshot holds exactly the files its record names. */
module CheckpointStorage {
  import opened Wrappers

  datatype HashedFile = HashedFile(path: string, sha256: string)

  type Manifest = map<string, string>

  /** `new Map(files.map(file => [file.path, file.sha256]))`: the last entry of a path wins. */
  function ManifestOf(files: seq<HashedFile>): Manifest {
    if files == [] then map[]
    else
      var last := files[|files| - 1];
      ManifestOf(files[..|files| - 1])[last.path := last.sha256]
  }

  predicate PathsDistinct(files: seq<HashedFile>) {
    forall i, j :: 0 <= i < j < |files| ==> files[i].path != files[j].path
  }

  class SnapshotManifest {
    var remaining: Manifest

    constructor (files: seq<HashedFile>)
      ensures remaining == ManifestOf(files)
    {
      remaining := ManifestOf(files);
    }

    /** Takes one file off the manifest, if it is still on it with this hash. */
    method Accept(file: HashedFile) returns (refusal: Option<string>)
      modifies this
      ensures refusal.None? <==> file.path in old(remaining) && old(remaining)[file.path] == file.sha256
      ensures remaining == if refusal.None? then old(remaining) - {file.path} else old(remaining)
    {
      if file.path !in remaining {
        return Some(file.path + " is not recorded");
      }
      if file.sha256 != remaining[file.path] {
        return Some(file.path + " hashes " + file.sha256 + ", recorded " + remaining[file.path]);
      }
      remaining := remaining - {file.path};
      refusal := None;
    }

    method RequireComplete() returns (complete: bool)
      ensures complete <==> remaining == map[]
    {
      complete := remaining.Keys == {};
      assert remaining.Keys == {} ==> remaining == map[];
    }
  }

  /** The snapshot's files so far are distinct and recorded, and the manifest holds the rest of the record. */
  ghost predicate Accepted(files: seq<HashedFile>, record: Manifest, remaining: Manifest) {
    && PathsDistinct(files)
    && (forall file :: file in files ==> file.path in record && record[file.path] == file.sha256)
    && remaining == record - ManifestOf(files).Keys
  }

  lemma {:induction false} ManifestKeys(files: seq<HashedFile>)
    ensures forall path :: path in ManifestOf(files) <==> exists i :: 0 <= i < |files| && files[i].path == path
    ensures PathsDistinct(files) ==>
      forall i :: 0 <= i < |files| ==> files[i].path in ManifestOf(files) && ManifestOf(files)[files[i].path] == files[i].sha256
  {
    if files != [] {
      var n := |files| - 1;
      var front := files[..n];
      ManifestKeys(front);
      forall path ensures path in ManifestOf(files) <==> exists i :: 0 <= i < |files| && files[i].path == path {
        if path in ManifestOf(front) {
          var i :| 0 <= i < n && front[i].path == path;
          assert files[i].path == path;
        }
        if i :| 0 <= i < |files| && files[i].path == path {
          assert i == n || front[i].path == path;
        }
      }
      if PathsDistinct(files) {
        forall i | 0 <= i < |files|
          ensures files[i].path in ManifestOf(files) && ManifestOf(files)[files[i].path] == files[i].sha256
        {
          assert i < n ==> front[i] == files[i];
        }
      }
    }
  }

  lemma ManifestSnoc(files: seq<HashedFile>, file: HashedFile)
    ensures ManifestOf(files + [file]) == ManifestOf(files)[file.path := file.sha256]
    ensures PathsDistinct(files + [file]) <==> PathsDistinct(files) && file.path !in ManifestOf(files)
  {
    var more := files + [file];
    assert more[..|files|] == files;
    ManifestKeys(files);
    hide ManifestOf;
    if PathsDistinct(more) {
      forall i | 0 <= i < |files| ensures files[i].path != file.path {
        assert more[i] == files[i] && more[|files|] == file;
      }
      assert forall i, j :: 0 <= i < j < |files| ==> more[i] == files[i] && more[j] == files[j];
    }
  }

  lemma RemainingShrinks(files: seq<HashedFile>, file: HashedFile, record: Manifest, remaining: Manifest)
    requires Accepted(files, record, remaining)
    ensures record - ManifestOf(files + [file]).Keys == remaining - {file.path}
  {
    ManifestSnoc(files, file);
    hide ManifestOf, PathsDistinct;
  }

  lemma AcceptOne(files: seq<HashedFile>, file: HashedFile, record: Manifest, remaining: Manifest)
    requires Accepted(files, record, remaining)
    ensures Accepted(files + [file], record, remaining - {file.path}) <==>
      file.path in remaining && remaining[file.path] == file.sha256
  {
    ManifestSnoc(files, file);
    RemainingShrinks(files, file, record, remaining);
    hide ManifestOf, PathsDistinct;
    assert file in files + [file];
    assert forall each :: each in files + [file] <==> each in files || each == file;
  }

  /** A snapshot with the record's map is never refused along the way. */
  lemma EqualIsAccepted(snapshot: seq<HashedFile>, i: nat, record: Manifest)
    requires i <= |snapshot|
    ensures PathsDistinct(snapshot) && ManifestOf(snapshot) == record ==>
      Accepted(snapshot[..i], record, record - ManifestOf(snapshot[..i]).Keys)
  {
    ManifestKeys(snapshot);
    hide ManifestOf;
    forall file | file in snapshot
      ensures PathsDistinct(snapshot) ==> file.path in ManifestOf(snapshot) && ManifestOf(snapshot)[file.path] == file.sha256
    {
      var k :| 0 <= k < |snapshot| && snapshot[k] == file;
    }
  }

  lemma NothingAcceptedYet(record: Manifest)
    ensures Accepted([], record, record)
  {
    assert record - ManifestOf([]).Keys == record;
  }

  /** On the manifest, the next file is accepted; and a snapshot with the record's map has it there. */
  lemma NextFile(snapshot: seq<HashedFile>, i: nat, record: Manifest, remaining: Manifest)
    requires i < |snapshot| && Accepted(snapshot[..i], record, remaining)
    ensures var file := snapshot[i];
      var listed := file.path in remaining && remaining[file.path] == file.sha256;
      && (listed <==> Accepted(snapshot[..i + 1], record, remaining - {file.path}))
      && (PathsDistinct(snapshot) && ManifestOf(snapshot) == record ==> listed)
  {
    hide *;
    var files, file := snapshot[..i], snapshot[i];
    assert snapshot[..i + 1] == files + [file];
    AcceptOne(files, file, record, remaining);
    RemainingShrinks(files, file, record, remaining);
    EqualIsAccepted(snapshot, i + 1, record);
  }

  /** The walk over the snapshot stops at the first file that is not on the manifest. */
  method VerifyWorkflowSnapshot(snapshot: seq<HashedFile>, files: seq<HashedFile>) returns (matches: bool)
    ensures matches <==> PathsDistinct(snapshot) && ManifestOf(snapshot) == ManifestOf(files)
  {
    hide *;
    var manifest := new SnapshotManifest(files);
    ghost var record := ManifestOf(files);
    NothingAcceptedYet(record);
    assert snapshot[..0] == [];
    for i := 0 to |snapshot|
      invariant fresh(manifest)
      invariant Accepted(snapshot[..i], record, manifest.remaining)
    {
      NextFile(snapshot, i, record, manifest.remaining);
      var refusal := manifest.Accept(snapshot[i]);
      if refusal.Some? {
        return false;
      }
    }
    assert snapshot[..|snapshot|] == snapshot;
    matches := manifest.RequireComplete();
    CompleteMeansEqual(snapshot, record, manifest.remaining);
  }

  lemma CompleteMeansEqual(snapshot: seq<HashedFile>, record: Manifest, remaining: Manifest)
    requires Accepted(snapshot, record, remaining)
    ensures remaining == map[] <==> PathsDistinct(snapshot) && ManifestOf(snapshot) == record
  {
    ManifestKeys(snapshot);
    forall path | path in ManifestOf(snapshot) ensures path in record && record[path] == ManifestOf(snapshot)[path] {
      var i :| 0 <= i < |snapshot| && snapshot[i].path == path;
      assert snapshot[i] in snapshot;
    }
    if remaining == map[] {
      forall path | path in record ensures path in ManifestOf(snapshot) {
        assert path !in remaining;
      }
      assert ManifestOf(snapshot) == record;
    }
  }
}
