/** The writer: uploads what is missing, commits by replacing the manifest, then collects garbage. */
module SnapshotPublisher {
  import opened Wrappers
  import opened Collections
  import opened ObjectStore
  import opened Snapshot
  import SnapshotRestore
  import Lex
  import VersionCodec

  ghost predicate Knows(remote: set<string>, keys: set<string>) {
    && (forall k | k in remote :: k in keys)
    && (forall k | k in keys && k !in SPECIAL :: k in remote)
  }

  /** The names that the upload loop does not skip. */
  function Missing(names: seq<string>, keys: set<string>): (r: seq<string>)
    ensures forall f | f in r :: f in names
    decreases |names|
  {
    if names == [] then [] else
      var last := names[|names| - 1];
      Missing(names[..|names| - 1], keys) + (if last in keys then [] else [last])
  }

  lemma ElemsMore(some: set<string>, names: seq<string>, i: nat)
    requires i < |names|
    ensures some + Elems(names[..i + 1]) == some + Elems(names[..i]) + {names[i]}
  {
    PrefixMore(names, i);
  }

  lemma MissingSnoc(files: map<string, string>, names: seq<string>, i: nat, keys: set<string>)
    requires i < |names| && Lex.Distinct(names)
    requires forall f | f in names :: f in files
    ensures Elems(names[..i + 1]) == Elems(names[..i]) + {names[i]}
    ensures names[i] in keys + Elems(names[..i]) <==> names[i] in keys
    ensures forall f | f in Missing(names[..i], keys) || f in Missing(names[..i + 1], keys) :: f in files
    ensures PutAll(files, Missing(names[..i + 1], keys)) ==
            PutAll(files, Missing(names[..i], keys))
                + (if names[i] in keys then [] else [Put(names[i], Raw(files[names[i]]))])
  {
    assert names[..i + 1] == names[..i] + [names[i]] && names[..i + 1][..i] == names[..i];
    MissingElements(names[..i], keys);
    MissingElements(names[..i + 1], keys);
    assert forall f | f in names[..i] :: f != names[i];
  }

  lemma {:induction false} MissingElements(names: seq<string>, keys: set<string>)
    ensures forall f :: f in Missing(names, keys) <==> f in names && f !in keys
    decreases |names|
  {
    if names != [] {
      MissingElements(names[..|names| - 1], keys);
      assert names == names[..|names| - 1] + [names[|names| - 1]];
    }
  }

  lemma {:induction false} MissingIsAscending(names: seq<string>, keys: set<string>)
    requires Lex.Ascending(names)
    ensures Lex.Ascending(Missing(names, keys))
    decreases |names|
  {
    if names != [] {
      var init, last := names[..|names| - 1], names[|names| - 1];
      MissingIsAscending(init, keys);
      MissingElements(init, keys);
      forall f | f in Missing(init, keys) ensures Lex.Lt(f, last) {
        var j :| 0 <= j < |init| && init[j] == f;
        assert names[j] == f;
      }
    }
  }

  /** Skipping what is there uploads exactly the sorted difference. */
  lemma MissingIsDifference(files: set<string>, keys: set<string>)
    ensures Missing(Lex.Sorted(files), keys) == Lex.Sorted(files - keys)
  {
    Lex.SortedIsSorted(files);
    Lex.SortedIsSorted(files - keys);
    MissingElements(Lex.Sorted(files), keys);
    MissingIsAscending(Lex.Sorted(files), keys);
    Lex.AscendingIsUnique(Missing(Lex.Sorted(files), keys), Lex.Sorted(files - keys));
  }

  function HashesOf(sha: string -> string, known: map<string, string>, files: map<string, string>, names: set<string>)
    : map<string, string>
    requires names <= files.Keys
  {
    map f | f in names :: if f in known then known[f] else sha(files[f])
  }

  lemma OneMoreHash(sha: string -> string, known: map<string, string>, files: map<string, string>, names: set<string>,
                    f: string)
    requires names <= files.Keys && f in files
    ensures var before := HashesOf(sha, known, files, names);
            var h := if f in known + before then (known + before)[f] else sha(files[f]);
            HashesOf(sha, known, files, names + {f}) == before[f := h]
  {
  }

  lemma PutLast(known: map<string, string>, before: map<string, string>, f: string, h: string)
    ensures known + before[f := h] == (known + before)[f := h]
  {
  }

  lemma HashesOfSnoc(sha: string -> string, known: map<string, string>, files: map<string, string>, names: seq<string>,
                     i: nat)
    requires i < |names| && forall f | f in names :: f in files
    ensures var before := HashesOf(sha, known, files, Elems(names[..i]));
            var after := HashesOf(sha, known, files, Elems(names[..i + 1]));
            var f := names[i];
            var h := if f in known + before then (known + before)[f] else sha(files[f]);
            after == before[f := h] && known + after == (known + before)[f := h]
  {
    PrefixMore(names, i);
    assert Elems(names[..i + 1]) == Elems(names[..i]) + {names[i]};
    var before, f := HashesOf(sha, known, files, Elems(names[..i])), names[i];
    OneMoreHash(sha, known, files, Elems(names[..i]), f);
    PutLast(known, before, f, if f in known + before then (known + before)[f] else sha(files[f]));
  }

  lemma DeleteAllSnoc(log: seq<Op>, names: seq<string>, i: nat)
    requires i < |names|
    ensures log + DeleteAll(names[..i]) + [Delete(names[i])] == log + DeleteAll(names[..i + 1])
  {
  }

  class SnapshotPublisher {
    const storage: ObjectStorage
    const sha: string -> string
    var uploaded: Option<set<string>>
    var previousFiles: set<string>
    var hashes: map<string, string>

    /** What this process believes is in the store is there; only the three fixed names may be missing. */
    ghost predicate Valid()
      reads this, storage
    {
      && storage.Valid()
      && (uploaded.Some? ==> Knows(uploaded.value, storage.objects.Keys))
    }

    /** Files are immutable: a hash computed earlier still is the hash of the file. */
    ghost predicate HashesAgree(root: Root)
      requires Ready(root)
      reads this
    {
      forall f | f in ManifestFiles(root) && f in hashes :: hashes[f] == sha(root.files[f])
    }

    /** A new process: nothing listed yet, and no memory of the files of an earlier publication. */
    constructor (storage: ObjectStorage, sha: string -> string)
      requires storage.Valid()
      ensures Valid() && this.storage == storage && this.sha == sha
      ensures uploaded == None && previousFiles == {} && hashes == map[]
    {
      this.storage, this.sha := storage, sha;
      uploaded, previousFiles, hashes := None, {}, map[];
    }

    method RemoteFiles() returns (remote: set<string>)
      requires Valid()
      modifies this`uploaded
      ensures Valid() && uploaded == Some(remote)
      ensures remote == if old(uploaded).None? then storage.objects.Keys else old(uploaded).value
    {
      if uploaded.None? {
        uploaded := Some(storage.objects.Keys);
      }
      remote := uploaded.value;
    }

    method UploadIfMissing(f: string, bytes: string)
      requires Valid() && uploaded.Some? && f !in SPECIAL
      modifies this`uploaded, storage
      ensures Valid() && uploaded.Some? && uploaded.value == old(uploaded.value) + {f}
      ensures storage.objects.Keys == old(storage.objects.Keys) + {f}
      ensures storage.log == old(storage.log) + (if f in old(storage.objects) then [] else [Put(f, Raw(bytes))])
    {
      if f !in uploaded.value {
        storage.PutObject(f, Raw(bytes));
        uploaded := Some(uploaded.value + {f});
      }
    }

    method UploadMissing(files: map<string, string>, names: seq<string>)
      requires Valid() && uploaded.Some? && Lex.Distinct(names)
      requires forall f | f in names :: f in files && f !in SPECIAL
      modifies this`uploaded, storage
      ensures Valid() && uploaded.Some? && uploaded.value == old(uploaded.value) + Elems(names)
      ensures storage.objects.Keys == old(storage.objects.Keys) + Elems(names)
      ensures storage.log == old(storage.log) + PutAll(files, Missing(names, old(storage.objects.Keys)))
    {
      ghost var keys, log, remote := storage.objects.Keys, storage.log, uploaded.value;
      assert names[..0] == [] && names[..|names|] == names;
      for i := 0 to |names|
        invariant Valid() && uploaded.Some? && uploaded.value == remote + Elems(names[..i])
        invariant storage.objects.Keys == keys + Elems(names[..i])
        invariant storage.log == log + PutAll(files, Missing(names[..i], keys))
      {
        var f := names[i];
        assert f in names;
        ElemsMore(keys, names, i);
        ElemsMore(remote, names, i);
        UploadIfMissing(f, files[f]);
        MissingSnoc(files, names, i, keys);
        Associative(log, PutAll(files, Missing(names[..i], keys)), if f in keys then [] else [Put(f, Raw(files[f]))]);
      }
    }

    /** `of` maps every name to its hash, computed now unless this process already knew it. */
    method HashFiles(files: map<string, string>, names: seq<string>) returns (of: map<string, string>)
      requires forall f | f in names :: f in files
      modifies this`hashes
      ensures of == HashesOf(sha, old(hashes), files, Elems(names))
      ensures hashes == old(hashes) + of
    {
      of := map[];
      ghost var known := hashes;
      for i := 0 to |names|
        invariant of == HashesOf(sha, known, files, Elems(names[..i]))
        invariant hashes == known + of
      {
        var f := names[i];
        assert f in names;
        HashesOfSnoc(sha, known, files, names, i);
        var h := if f in hashes then hashes[f] else sha(files[f]);
        hashes := hashes[f := h];
        of := of[f := h];
      }
      assert names[..|names|] == names;
    }

    method DeleteOne(f: string)
      requires Valid() && uploaded.Some?
      modifies this`uploaded, storage
      ensures Valid() && uploaded.Some?
      ensures storage.log == old(storage.log) + [Delete(f)]
    {
      storage.DeleteObject(f);
      uploaded := Some(uploaded.value - {f});
    }

    method CollectGarbage(keep: set<string>)
      requires Valid() && uploaded.Some?
      modifies this`uploaded, storage
      ensures Valid() && uploaded.Some?
      ensures storage.log == old(storage.log) + DeleteAll(Lex.Sorted(old(uploaded.value) - keep))
    {
      ghost var log := storage.log;
      var names := Lex.Sort(uploaded.value - keep);
      for i := 0 to |names|
        invariant Valid() && uploaded.Some?
        invariant storage.log == log + DeleteAll(names[..i])
      {
        DeleteOne(names[i]);
        DeleteAllSnoc(log, names, i);
      }
      assert names[..|names|] == names;
    }

    method PutFixedObjects(m: Manifest, version: string)
      requires Valid() && uploaded.Some?
      modifies storage
      ensures Valid()
      ensures storage.objects.Keys == old(storage.objects.Keys) + SPECIAL
      ensures storage.log == old(storage.log) + Commit(sha, m, version)
    {
      storage.PutObject(MANIFEST, SegmentsManifest(m));
      storage.PutObject(SNAPSHOT, Pointer(version, sha(m.bytes)));
      storage.PutObject(MARKER, Marker(version));
    }

    /** The body of `publish` once the local manifest has been read and its segments found. */
    method PublishFiles(root: Root) returns (version: string, ghost p: Publication)
      requires Valid() && Ready(root)
      modifies this, storage
      ensures Valid()
      ensures p == PublicationOf(root, version, old(storage.objects.Keys), old(previousFiles))
      ensures Legal(p, old(storage.objects.Keys), old(previousFiles))
      ensures storage.log == old(storage.log) + Ops(sha, p)
      ensures previousFiles == ManifestFiles(root)
      ensures version == VersionCodec.SnapshotVersion(sha, root.manifest.value.bytes,
                           HashesOf(sha, old(hashes), root.files, ManifestFiles(root)))
      ensures Retained(hashes, old(hashes), HashesOf(sha, old(hashes), root.files, ManifestFiles(root)))
    {
      ghost var keys, previous, log := storage.objects.Keys, previousFiles, storage.log;
      version := UploadAndCommit(root);
      CleanUpPhase(ManifestFiles(root));
      p := PublicationOf(root, version, keys, previous);
      PublicationIsLegal(root, version, keys, previous);
      GarbageIs(keys, ManifestFiles(root), previous);
      LogIsOps(sha, log, p);
    }

    method UploadAndCommit(root: Root) returns (version: string)
      requires Valid() && Ready(root)
      modifies this`uploaded, this`hashes, storage
      ensures Valid() && uploaded.Some?
      ensures storage.objects.Keys == old(storage.objects.Keys) + ManifestFiles(root) + SPECIAL
      ensures var missing := Lex.Sorted(ManifestFiles(root) - old(storage.objects.Keys));
              && (forall f | f in missing :: f in root.files)
              && storage.log == old(storage.log) + PutAll(root.files, missing)
                                + Commit(sha, root.manifest.value, version)
      ensures var of := HashesOf(sha, old(hashes), root.files, ManifestFiles(root));
              && version == VersionCodec.SnapshotVersion(sha, root.manifest.value.bytes, of)
              && hashes == old(hashes) + of
    {
      var names := UploadPhase(ManifestFiles(root), root.files);
      version := CommitPhase(root, names);
    }

    method UploadPhase(files: set<string>, local: map<string, string>) returns (names: seq<string>)
      requires Valid() && forall f | f in files :: f in local && f !in SPECIAL
      modifies this`uploaded, storage
      ensures Valid() && uploaded.Some?
      ensures names == Lex.Sorted(files)
      ensures storage.objects.Keys == old(storage.objects.Keys) + files
      ensures var missing := Lex.Sorted(files - old(storage.objects.Keys));
              && (forall f | f in missing :: f in local)
              && storage.log == old(storage.log) + PutAll(local, missing)
    {
      names := Lex.Sort(files);
      Lex.SortedIsSorted(files);
      MissingIsDifference(files, storage.objects.Keys);
      assert Elems(names) == files;
      var remote := RemoteFiles();
      UploadMissing(local, names);
    }

    method CommitPhase(root: Root, names: seq<string>) returns (version: string)
      requires Valid() && uploaded.Some? && Ready(root) && names == Lex.Sorted(ManifestFiles(root))
      modifies this`hashes, storage
      ensures Valid()
      ensures storage.objects.Keys == old(storage.objects.Keys) + SPECIAL
      ensures storage.log == old(storage.log) + Commit(sha, root.manifest.value, version)
      ensures var of := HashesOf(sha, old(hashes), root.files, ManifestFiles(root));
              && version == VersionCodec.SnapshotVersion(sha, root.manifest.value.bytes, of)
              && hashes == old(hashes) + of
    {
      Lex.SortedIsSorted(ManifestFiles(root));
      assert Elems(names) == ManifestFiles(root);
      var of := HashFiles(root.files, names);
      version := VersionCodec.ComputeVersion(sha, root.manifest.value.bytes, of);
      PutFixedObjects(root.manifest.value, version);
    }

    method CleanUpPhase(files: set<string>)
      requires Valid() && uploaded.Some?
      modifies this, storage
      ensures Valid()
      ensures previousFiles == files
      ensures storage.log == old(storage.log)
                + DeleteAll(Lex.Sorted(old(storage.objects.Keys) - (files + old(previousFiles) + SPECIAL)))
      ensures hashes == map f | f in old(hashes) && f in files + old(previousFiles) + SPECIAL :: old(hashes)[f]
    {
      var keep := files + previousFiles + SPECIAL;
      KnownGarbage(uploaded.value, storage.objects.Keys, keep);
      CollectGarbage(keep);
      previousFiles := files;
      hashes := map f | f in hashes && f in keep :: hashes[f];
    }

    /** `publish`: issues exactly the requests of `PublicationOf`, in their order. */
    method Publish(root: Root) returns (r: Result<string>, ghost p: Publication)
      requires Valid() && WellFormed(root)
      modifies this, storage
      ensures Valid()
      ensures r.Success? <==> Publishable(root)
      ensures r.Failure? ==> storage.log == old(storage.log) && previousFiles == old(previousFiles)
      ensures r.Success? ==>
                && p == PublicationOf(root, r.value, old(storage.objects.Keys), old(previousFiles))
                && Legal(p, old(storage.objects.Keys), old(previousFiles))
                && storage.log == old(storage.log) + Ops(sha, p)
                && storage.objects == StoreAt(sha, old(storage.objects), p, |Ops(sha, p)|)
                && previousFiles == ManifestFiles(root)
                && IsPublished(sha, storage.objects, old(storage.objects), root, r.value, old(previousFiles))
      ensures r.Success? && old(HashesAgree(root)) ==>
                && HashesAgree(root)
                && r.value == SnapshotRestore.VersionOf(sha, root.manifest.value, SnapshotRestore.LocalFiles(root))
    {
      p := Publication(root, "", [], []);
      if root.manifest.None? {
        return Failure("unreadable local manifest"), p;
      }
      if exists s | s in root.manifest.value.segments :: s.name !in root.dirs {
        return Failure("a segment is missing"), p;
      }
      ghost var objects, log, known, previous := storage.objects, storage.log, hashes, previousFiles;
      var version;
      version, p := PublishFiles(root);
      AllRequestsPublish(sha, objects, p, previous);
      r := Success(version);
      ReplayConcat(storage.initial, log, Ops(sha, p));
      assert Ops(sha, p)[..|Ops(sha, p)|] == Ops(sha, p);
      if old(HashesAgree(root)) {
        HashesAreLocal(sha, known, root);
      }
    }

    /** A publication as its readers see it happen; `seen` are the stores after each of its requests. */
    method PublishBefore(root: Root) returns (version: string, ghost seen: seq<Objects>)
      requires Valid() && Ready(root)
      modifies this, storage
      ensures Valid()
      ensures var p := PublicationOf(root, version, old(storage.objects.Keys), old(previousFiles));
              && Legal(p, old(storage.objects.Keys), old(previousFiles))
              && seen == StoresSeen(sha, old(storage.objects), p)
      ensures seen != [] && seen[|seen| - 1] == storage.objects && ManifestIn(storage.objects) == root.manifest
      ensures forall i | 0 <= i < |seen| ::
                ManifestIn(seen[i]) == old(ManifestIn(storage.objects)) || ManifestIn(seen[i]) == root.manifest
    {
      ghost var objects, previous := storage.objects, previousFiles;
      var r;
      ghost var p;
      r, p := Publish(root);
      version := r.value;
      seen := StoresSeen(sha, objects, p);
      ReadersFindOldOrNew(sha, objects, p, previous);
      LastSeen(sha, objects, p);
      assert storage.objects == seen[|seen| - 1];
      assert ManifestIn(seen[|seen| - 1]) == root.manifest;
    }
  }

  /** The hashes a process keeps are among those it knew or has just computed. */
  ghost predicate Retained(now: map<string, string>, before: map<string, string>, of: map<string, string>) {
    forall f | f in now :: f in before + of && now[f] == (before + of)[f]
  }

  lemma KnownGarbage(remote: set<string>, keys: set<string>, keep: set<string>)
    requires Knows(remote, keys) && SPECIAL <= keep
    ensures remote - keep == keys - keep
  {
  }

  /** The stores that readers can find, one after each request of a publication. */
  ghost function StoresSeen(sha: string -> string, objects: Objects, p: Publication): (seen: seq<Objects>)
    requires p.root.manifest.Some? && forall f | f in p.uploads :: f in p.root.files
    ensures |seen| == |p.uploads| + 3 + |p.deletes|
  {
    OpsPrefix(sha, p, 0);
    seq(|Ops(sha, p)|, n requires 0 <= n < |Ops(sha, p)| => StoreAt(sha, objects, p, n + 1))
  }

  lemma LastSeen(sha: string -> string, objects: Objects, p: Publication)
    requires p.root.manifest.Some? && forall f | f in p.uploads :: f in p.root.files
    ensures var seen := StoresSeen(sha, objects, p);
            |seen| > |p.uploads| && seen[|seen| - 1] == StoreAt(sha, objects, p, |Ops(sha, p)|)
  {
    OpsPrefix(sha, p, 0);
  }

  lemma SeenAfter(sha: string -> string, objects: Objects, p: Publication, previous: set<string>, n: nat)
    requires Legal(p, objects.Keys, previous) && n <= |p.uploads| + 3 + |p.deletes|
    ensures |Ops(sha, p)| == |p.uploads| + 3 + |p.deletes|
    ensures ManifestIn(StoreAt(sha, objects, p, n)) == if n > |p.uploads| then p.root.manifest else ManifestIn(objects)
  {
    OpsPrefix(sha, p, 0);
    StoreShape(sha, objects, p, previous, n);
  }

  lemma SeenIs(sha: string -> string, objects: Objects, p: Publication, i: nat)
    requires p.root.manifest.Some? && forall f | f in p.uploads :: f in p.root.files
    requires i < |StoresSeen(sha, objects, p)|
    ensures i + 1 <= |Ops(sha, p)| && StoresSeen(sha, objects, p)[i] == StoreAt(sha, objects, p, i + 1)
  {
    OpsPrefix(sha, p, 0);
  }

  lemma SeenAt(sha: string -> string, objects: Objects, p: Publication, previous: set<string>, i: nat)
    requires Legal(p, objects.Keys, previous) && i < |StoresSeen(sha, objects, p)|
    ensures ManifestIn(StoresSeen(sha, objects, p)[i])
            == if i >= |p.uploads| then p.root.manifest else ManifestIn(objects)
  {
    SeenAfter(sha, objects, p, previous, i + 1);
    SeenIs(sha, objects, p, i);
  }

  /** Until the manifest is replaced readers find the old snapshot, and from then on the new one. */
  lemma ReadersFindOldOrNew(sha: string -> string, objects: Objects, p: Publication, previous: set<string>)
    requires Legal(p, objects.Keys, previous)
    ensures forall i | 0 <= i < |StoresSeen(sha, objects, p)| ::
              ManifestIn(StoresSeen(sha, objects, p)[i])
                  == if i >= |p.uploads| then p.root.manifest else ManifestIn(objects)
  {
    forall i | 0 <= i < |StoresSeen(sha, objects, p)|
      ensures ManifestIn(StoresSeen(sha, objects, p)[i])
              == if i >= |p.uploads| then p.root.manifest else ManifestIn(objects)
    {
      SeenAt(sha, objects, p, previous, i);
    }
  }

  lemma GarbageIs(keys: set<string>, files: set<string>, previous: set<string>)
    ensures keys + files + SPECIAL - (files + previous + SPECIAL) == keys - SPECIAL - files - previous
  {
  }

  lemma LogIsOps(sha: string -> string, log: seq<Op>, p: Publication)
    requires p.root.manifest.Some? && forall f | f in p.uploads :: f in p.root.files
    ensures log + PutAll(p.root.files, p.uploads) + Commit(sha, p.root.manifest.value, p.version) + DeleteAll(p.deletes)
            == log + Ops(sha, p)
  {
  }

  lemma HashesAreLocal(sha: string -> string, known: map<string, string>, root: Root)
    requires Ready(root)
    requires forall f | f in ManifestFiles(root) && f in known :: known[f] == sha(root.files[f])
    ensures var local := SnapshotRestore.LocalFiles(root);
            HashesOf(sha, known, root.files, ManifestFiles(root)) == map f | f in local ::
                  sha(SnapshotRestore.BytesOf(local[f]))
  {
  }
}
