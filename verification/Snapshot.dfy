/**
 Publication of a segmented index and its restoration by readers that take no lock
 (src/beacon_scale_infra/incremental/snapshot.py).
 */
module Snapshot {
  import opened Wrappers
  import opened ObjectStore
  import opened Collections
  import Lex
  import VersionCodec

  const MANIFEST := "segments.json"
  const SNAPSHOT := "snapshot.json"
  const MARKER := "index_version.json"
  const SPECIAL: set<string> := {MANIFEST, SNAPSHOT, MARKER}

  /** The local copy of the index: its manifest, its directories and every file below it. */
  datatype Root = Root(manifest: Option<Manifest>, dirs: set<string>, files: map<string, string>)

  predicate Under(segment: string, key: string) {
    segment + "/" <= key
  }

  predicate Referenced(segments: seq<Segment>, key: string) {
    exists s | s in segments :: Under(s.name, key)
  }

  function DeletesFiles(segments: seq<Segment>): set<string> {
    set s | s in segments && s.deletesFile.Some? :: s.deletesFile.value
  }

  /** `manifest_files`: everything in the segments' directories, and the tombstone files. */
  function ManifestFiles(root: Root): set<string>
    requires root.manifest.Some?
  {
    var segments := root.manifest.value.segments;
    (set key | key in root.files.Keys && Referenced(segments, key)) + DeletesFiles(segments)
  }

  /** The manifest that a reader of `segments.json` decodes, if there is one. */
  function ManifestIn(objects: Objects): Option<Manifest> {
    if MANIFEST in objects && objects[MANIFEST].SegmentsManifest? then Some(objects[MANIFEST].manifest) else None
  }

  /** What `publish` accepts; otherwise it raises before touching the store. */
  predicate Publishable(root: Root) {
    && root.manifest.Some?
    && forall s | s in root.manifest.value.segments :: s.name in root.dirs
  }

  /** The segmented index writes every file its manifest names, and none under the three fixed names. */
  ghost predicate WellFormed(root: Root) {
    root.manifest.Some? ==>
      forall f | f in ManifestFiles(root) :: f in root.files && f !in SPECIAL
  }

  ghost predicate Ready(root: Root) {
    Publishable(root) && WellFormed(root)
  }

  // ---------------------------------------------------------------- one publication, request by request

  datatype Publication = Publication(root: Root, version: string, uploads: seq<string>, deletes: seq<string>)

  /** The requests of one `publish`, for the keys in the store and the files of the previous publication. */
  ghost function PublicationOf(root: Root, version: string, keys: set<string>, previous: set<string>): Publication
    requires root.manifest.Some?
  {
    var files := ManifestFiles(root);
    Publication(root, version, Lex.Sorted(files - keys), Lex.Sorted(keys - SPECIAL - files - previous))
  }

  function PutAll(files: map<string, string>, names: seq<string>): seq<Op>
    requires forall f | f in names :: f in files
  {
    seq(|names|, i requires 0 <= i < |names| => Put(names[i], Raw(files[names[i]])))
  }

  function DeleteAll(names: seq<string>): seq<Op> {
    seq(|names|, i requires 0 <= i < |names| => Delete(names[i]))
  }

  function Commit(sha: string -> string, m: Manifest, version: string): seq<Op> {
    [Put(MANIFEST, SegmentsManifest(m)), Put(SNAPSHOT, Pointer(version, sha(m.bytes))), Put(MARKER, Marker(version))]
  }

  ghost predicate Legal(p: Publication, keys: set<string>, previous: set<string>) {
    && Ready(p.root)
    && p == PublicationOf(p.root, p.version, keys, previous)
    && forall f | f in p.uploads :: f in p.root.files
  }

  lemma PublicationIsLegal(root: Root, version: string, keys: set<string>, previous: set<string>)
    requires Ready(root)
    ensures Legal(PublicationOf(root, version, keys, previous), keys, previous)
  {
    Lex.SortedIsSorted(ManifestFiles(root) - keys);
  }

  ghost function Ops(sha: string -> string, p: Publication): seq<Op>
    requires p.root.manifest.Some? && forall f | f in p.uploads :: f in p.root.files
  {
    PutAll(p.root.files, p.uploads) + Commit(sha, p.root.manifest.value, p.version) + DeleteAll(p.deletes)
  }

  lemma {:induction false} ReplayPuts(objects: Objects, files: map<string, string>, names: seq<string>)
    requires forall f | f in names :: f in files
    ensures var r := Replay(objects, PutAll(files, names));
            r == objects + map f | f in names :: Raw(files[f])
    decreases |names|
  {
    if names != [] {
      var init, last := names[..|names| - 1], names[|names| - 1];
      LastSplit(names);
      ReplayPuts(objects, files, init);
      OnePutMore(objects, files, init, last);
      RawsOneMore(files, init, last);
    }
  }

  lemma OnePutMore(objects: Objects, files: map<string, string>, names: seq<string>, last: string)
    requires forall f | f in names + [last] :: f in files
    requires forall f | f in names :: f in files
    ensures last in files
    ensures Replay(objects, PutAll(files, names + [last]))
            == Replay(objects, PutAll(files, names))[last := Raw(files[last])]
  {
    assert last in names + [last];
    assert PutAll(files, names + [last])[..|names|] == PutAll(files, names);
  }

  lemma RawsOneMore(files: map<string, string>, names: seq<string>, last: string)
    requires forall f | f in names + [last] :: f in files
    ensures (map f | f in names + [last] :: Raw(files[f]))
            == (map f | f in names :: Raw(files[f]))[last := Raw(files[last])]
  {
  }

  lemma {:induction false} ReplayDeletes(objects: Objects, names: seq<string>)
    ensures Replay(objects, DeleteAll(names)) == objects - set f | f in names
    decreases |names|
  {
    if names != [] {
      var init, last := names[..|names| - 1], names[|names| - 1];
      ReplayDeletes(objects, init);
      assert DeleteAll(names)[..|names| - 1] == DeleteAll(init);
      assert names == init + [last];
      assert (set f | f in names) == (set f | f in init) + {last};
    }
  }

  /** The store after the first `n` requests of `p`. */
  ghost function StoreAt(sha: string -> string, objects: Objects, p: Publication, n: nat): Objects
    requires p.root.manifest.Some? && forall f | f in p.uploads :: f in p.root.files
    requires n <= |Ops(sha, p)|
  {
    Replay(objects, Ops(sha, p)[..n])
  }

  function Min(a: int, b: int): int { if a < b then a else b }

  function Max(a: int, b: int): int { if a < b then b else a }

  function Elems(names: seq<string>): set<string> {
    set f | f in names
  }

  /** The uploads, the fixed objects and the deletions that are among the first `n` requests. */
  function Uploaded(p: Publication, n: nat): (r: seq<string>)
    ensures forall f | f in r :: f in p.uploads
  {
    p.uploads[..Min(n, |p.uploads|)]
  }

  function Committed(p: Publication, n: nat): nat {
    Max(0, Min(n - |p.uploads|, 3))
  }

  function Deleted(p: Publication, n: nat): (r: seq<string>)
    ensures forall f | f in r :: f in p.deletes
  {
    p.deletes[..Max(0, Min(n - |p.uploads| - 3, |p.deletes|))]
  }

  lemma OpsPrefix(sha: string -> string, p: Publication, n: nat)
    requires p.root.manifest.Some? && forall f | f in p.uploads :: f in p.root.files
    requires n <= |Ops(sha, p)|
    ensures |Ops(sha, p)| == |p.uploads| + 3 + |p.deletes|
    ensures Ops(sha, p)[..n] ==
            PutAll(p.root.files, Uploaded(p, n))
            + Commit(sha, p.root.manifest.value, p.version)[..Committed(p, n)]
            + DeleteAll(Deleted(p, n))
  {
  }

  /** The three phases one after the other: uploads, the three fixed objects, deletions. */
  lemma StoreInPhases(sha: string -> string, objects: Objects, p: Publication, n: nat)
    requires p.root.manifest.Some? && forall f | f in p.uploads :: f in p.root.files
    requires n <= |Ops(sha, p)|
    ensures StoreAt(sha, objects, p, n) ==
            WithCommit(sha, objects, p, n) - Elems(Deleted(p, n))
  {
    OpsPrefix(sha, p, n);
    var puts, dels := PutAll(p.root.files, Uploaded(p, n)), DeleteAll(Deleted(p, n));
    var commit := Commit(sha, p.root.manifest.value, p.version)[..Committed(p, n)];
    ReplayConcat(objects, puts + commit, dels);
    ReplayConcat(objects, puts, commit);
    ReplayPuts(objects, p.root.files, Uploaded(p, n));
    ReplayDeletes(Replay(objects, puts + commit), Deleted(p, n));
  }

  ghost predicate HasFiles(o: Objects, objects: Objects, p: Publication, n: nat)
    requires forall f | f in p.uploads :: f in p.root.files
  {
    && (forall k | k !in SPECIAL :: k in o <==> (k in objects || k in Uploaded(p, n)) && k !in Deleted(p, n))
    && (forall k | k !in SPECIAL && k in o && k in objects :: o[k] == objects[k])
    && (forall k | k !in SPECIAL && k in o && k !in objects :: k in p.uploads && o[k] == Raw(p.root.files[k]))
  }

  ghost predicate HasFixedObjects(sha: string -> string, o: Objects, objects: Objects, p: Publication, n: nat)
    requires p.root.manifest.Some?
  {
    var u := |p.uploads|;
    var m := p.root.manifest.value;
    && (if n > u then Holds(o, MANIFEST, SegmentsManifest(m)) else SameAt(o, objects, MANIFEST))
    && (if n > u + 1 then Holds(o, SNAPSHOT, Pointer(p.version, sha(m.bytes))) else SameAt(o, objects, SNAPSHOT))
    && (if n > u + 2 then Holds(o, MARKER, Marker(p.version)) else SameAt(o, objects, MARKER))
  }

  predicate Holds(o: Objects, key: string, blob: Blob) {
    key in o && o[key] == blob
  }

  predicate SameAt(o: Objects, objects: Objects, key: string) {
    (key in o <==> key in objects) && (key in o ==> o[key] == objects[key])
  }

  /** What the store holds after `n` requests: the one fact about a publication the rest builds on. */
  lemma StoreShape(sha: string -> string, objects: Objects, p: Publication, previous: set<string>, n: nat)
    requires Legal(p, objects.Keys, previous)
    requires n <= |Ops(sha, p)|
    ensures |Ops(sha, p)| == |p.uploads| + 3 + |p.deletes|
    ensures HasFiles(StoreAt(sha, objects, p, n), objects, p, n)
    ensures HasFixedObjects(sha, StoreAt(sha, objects, p, n), objects, p, n)
  {
    OpsPrefix(sha, p, n);
    StoreInPhases(sha, objects, p, n);
    NamesOfPublication(p, objects.Keys, previous);
    CommitShape(WithUploads(objects, p, n), sha, p.root.manifest.value, p.version, Committed(p, n));
    PhasesGiveShape(sha, objects, p, n, WithCommit(sha, objects, p, n));
  }

  /** What a publication leaves: the three fixed objects, its files, and what it keeps of the publication before. */
  ghost predicate IsPublished(sha: string -> string, o: Objects, objects: Objects, root: Root, version: string,
                              previous: set<string>)
    requires root.manifest.Some?
  {
    && Holds(o, MANIFEST, SegmentsManifest(root.manifest.value))
    && Holds(o, SNAPSHOT, Pointer(version, sha(root.manifest.value.bytes)))
    && Holds(o, MARKER, Marker(version))
    && (forall f | f !in SPECIAL :: f in o <==> f in ManifestFiles(root) || (f in objects && f in previous))
    && (forall f | f !in SPECIAL && f in o && f in objects :: o[f] == objects[f])
    && (forall f | f !in SPECIAL && f in o && f !in objects :: f in root.files && o[f] == Raw(root.files[f]))
  }

  lemma AllRequestsPublish(sha: string -> string, objects: Objects, p: Publication, previous: set<string>)
    requires Legal(p, objects.Keys, previous)
    ensures IsPublished(sha, StoreAt(sha, objects, p, |Ops(sha, p)|), objects, p.root, p.version, previous)
  {
    var n := |Ops(sha, p)|;
    StoreShape(sha, objects, p, previous, n);
    NamesOfPublication(p, objects.Keys, previous);
    assert Uploaded(p, n) == p.uploads && Deleted(p, n) == p.deletes;
  }

  function WithUploads(objects: Objects, p: Publication, n: nat): Objects
    requires forall f | f in p.uploads :: f in p.root.files
  {
    objects + map f | f in Uploaded(p, n) :: Raw(p.root.files[f])
  }

  function WithCommit(sha: string -> string, objects: Objects, p: Publication, n: nat): Objects
    requires p.root.manifest.Some? && forall f | f in p.uploads :: f in p.root.files
  {
    Replay(WithUploads(objects, p, n), Commit(sha, p.root.manifest.value, p.version)[..Committed(p, n)])
  }

  lemma NamesOfPublication(p: Publication, keys: set<string>, previous: set<string>)
    requires Legal(p, keys, previous)
    ensures forall k :: k in p.uploads <==> k in ManifestFiles(p.root) && k !in keys
    ensures forall k :: k in p.deletes <==>
              k in keys && k !in SPECIAL && k !in ManifestFiles(p.root) && k !in previous
    ensures forall k | k in p.uploads :: k !in SPECIAL
  {
    Lex.SortedIsSorted(ManifestFiles(p.root) - keys);
    Lex.SortedIsSorted(keys - SPECIAL - ManifestFiles(p.root) - previous);
  }

  lemma PhasesGiveShape(sha: string -> string, objects: Objects, p: Publication, n: nat, committed: Objects)
    requires p.root.manifest.Some? && forall f | f in p.uploads :: f in p.root.files
    requires forall k | k in p.uploads :: k !in objects && k !in SPECIAL
    requires forall k | k in p.deletes :: k !in SPECIAL
    requires var base := WithUploads(objects, p, n);
             && committed.Keys - SPECIAL == base.Keys - SPECIAL
             && (forall k | k in committed && k !in SPECIAL :: k in base && committed[k] == base[k])
             && CommitEffect(sha, committed, base, p.root.manifest.value, p.version, Committed(p, n))
    ensures var o := committed - Elems(Deleted(p, n));
            HasFiles(o, objects, p, n) && HasFixedObjects(sha, o, objects, p, n)
  {
    var base := WithUploads(objects, p, n);
    var o := committed - Elems(Deleted(p, n));
    forall k | k !in SPECIAL ensures k in o <==> (k in objects || k in Uploaded(p, n)) && k !in Deleted(p, n) {
      assert k in committed <==> k in committed.Keys - SPECIAL;
      assert k in base <==> k in base.Keys - SPECIAL;
    }
    assert MANIFEST in SPECIAL && MANIFEST !in Uploaded(p, n) && MANIFEST !in Deleted(p, n);
    assert SNAPSHOT in SPECIAL && SNAPSHOT !in Uploaded(p, n) && SNAPSHOT !in Deleted(p, n);
    assert MARKER in SPECIAL && MARKER !in Uploaded(p, n) && MARKER !in Deleted(p, n);
  }

  ghost predicate CommitEffect(sha: string -> string, o: Objects, base: Objects, m: Manifest, version: string, c: nat) {
    && (if c > 0 then Holds(o, MANIFEST, SegmentsManifest(m)) else SameAt(o, base, MANIFEST))
    && (if c > 1 then Holds(o, SNAPSHOT, Pointer(version, sha(m.bytes))) else SameAt(o, base, SNAPSHOT))
    && (if c > 2 then Holds(o, MARKER, Marker(version)) else SameAt(o, base, MARKER))
  }

  lemma {:induction false} CommitShape(objects: Objects, sha: string -> string, m: Manifest, version: string, n: nat)
    requires n <= 3
    ensures var o := Replay(objects, Commit(sha, m, version)[..n]);
            && o.Keys - SPECIAL == objects.Keys - SPECIAL
            && (forall k | k in o && k !in SPECIAL :: k in objects && o[k] == objects[k])
            && CommitEffect(sha, o, objects, m, version, n)
  {
    NamesDiffer();
    var c := Commit(sha, m, version);
    if n > 0 {
      CommitShape(objects, sha, m, version, n - 1);
      assert c[..n][..n - 1] == c[..n - 1];
      assert Replay(objects, c[..n]) == Apply(Replay(objects, c[..n - 1]), c[n - 1]);
    }
  }

  lemma NamesDiffer()
    ensures MANIFEST != SNAPSHOT && SNAPSHOT != MARKER && MANIFEST != MARKER
  {
    assert MANIFEST[1] != SNAPSHOT[1] && MARKER[0] != SNAPSHOT[0] && MARKER[0] != MANIFEST[0];
  }
}
