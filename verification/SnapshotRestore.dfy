/**
 Readers: `restore_snapshot`, and the pointer protocol that `export_bundle` puts in front of it.
 A reader's requests land at arbitrary moments, so each one carries the store it found.
 */
module SnapshotRestore {
  import opened Wrappers
  import opened Collections
  import opened ObjectStore
  import opened Snapshot
  import opened SnapshotSafety
  import VersionCodec

  /** `Restored` is what the local directory holds afterwards. */
  datatype Outcome =
    | NothingPublished
    | Refused(reason: string)
    | Restored(manifest: Manifest, files: map<string, Blob>)

  function Listed(objects: Objects, segment: string): set<string> {
    set key | key in objects.Keys && Under(segment, key)
  }

  /** Each segment is listed at a moment of its own: `seen[i]` is the store the i-th listing found. */
  function Wanted(segments: seq<Segment>, seen: seq<Objects>): set<string>
    requires |seen| == |segments|
    decreases |segments|
  {
    if segments == [] then {} else
      var last := |segments| - 1;
      var tombstones := segments[last].deletesFile;
      Wanted(segments[..last], seen[..last])
      + Listed(seen[last], segments[last].name)
      + (if tombstones.Some? then {tombstones.value} else {})
  }

  function BytesOf(blob: Blob): string {
    match blob
    case Raw(bytes) => bytes
    case SegmentsManifest(m) => m.bytes
    case Pointer(_, _) => ""
    case Marker(_) => ""
  }

  /** What decides before any segment is listed, from the store in which the manifest was read. */
  function Screen(sha: string -> string, emptyRoot: bool, expected: Option<string>, first: Objects): Option<Outcome> {
    if MANIFEST !in first then Some(NothingPublished)
    else if expected.Some? && sha(BytesOf(first[MANIFEST])) != expected.value then
      Some(Refused("the manifest changed after snapshot.json was read"))
    else if !first[MANIFEST].SegmentsManifest? then Some(Refused("unreadable manifest"))
    else if !emptyRoot then Some(Refused("not restoring over existing files"))
    else None
  }

  ghost predicate Covers(m: Manifest, seen: seq<Objects>, got: map<string, Objects>) {
    |seen| == |m.segments| && Wanted(m.segments, seen) <= got.Keys
  }

  /** Downloads every wanted file; `got[f]` is the store in which file `f` was requested. */
  function Download(m: Manifest, seen: seq<Objects>, got: map<string, Objects>): Outcome
    requires Covers(m, seen, got)
  {
    var wanted := Wanted(m.segments, seen);
    if exists f | f in wanted :: f !in got[f] then Refused("a referenced file is no longer published")
    else Restored(m, map f | f in wanted :: got[f][f])
  }

  ghost function Restore(sha: string -> string, emptyRoot: bool, expected: Option<string>,
                         first: Objects, seen: seq<Objects>, got: map<string, Objects>): Outcome
    requires Screen(sha, emptyRoot, expected, first).None? ==> Covers(first[MANIFEST].manifest, seen, got)
  {
    match Screen(sha, emptyRoot, expected, first)
    case Some(outcome) => outcome
    case None => Download(first[MANIFEST].manifest, seen, got)
  }

  /** Every file was there when it was asked for. */
  ghost predicate FoundAll(m: Manifest, seen: seq<Objects>, got: map<string, Objects>) {
    Covers(m, seen, got) && forall f | f in Wanted(m.segments, seen) :: f in got[f]
  }

  /** The manifest may be restored here, and is the one that was asked for. */
  ghost predicate MayRestore(sha: string -> string, emptyRoot: bool, expected: Option<string>, first: Objects) {
    && emptyRoot && ManifestIn(first).Some?
    && (expected.Some? ==> sha(BytesOf(first[MANIFEST])) == expected.value)
  }

  /** Nothing is restored without a manifest; otherwise all files are, or there is an error. */
  ghost predicate IsOutcome(sha: string -> string, emptyRoot: bool, expected: Option<string>, first: Objects,
                            seen: seq<Objects>, got: map<string, Objects>, r: Outcome)
  {
    && (r.NothingPublished? <==> MANIFEST !in first)
    && (r.Restored? <==> MayRestore(sha, emptyRoot, expected, first)
                         && FoundAll(ManifestIn(first).value, seen, got))
    && (r.Restored? ==>
          && ManifestIn(first) == Some(r.manifest) && r.files.Keys == Wanted(r.manifest.segments, seen)
          && forall f | f in r.files :: f in got && f in got[f] && r.files[f] == got[f][f])
  }

  lemma RestoreHasOutcome(sha: string -> string, emptyRoot: bool, expected: Option<string>, first: Objects,
                          seen: seq<Objects>, got: map<string, Objects>)
    requires Screen(sha, emptyRoot, expected, first).None? ==> Covers(first[MANIFEST].manifest, seen, got)
    ensures IsOutcome(sha, emptyRoot, expected, first, seen, got,
                      Restore(sha, emptyRoot, expected, first, seen, got))
  {
  }

  /** `o` is a store the reader can have found between the moments `from` and `to`. */
  ghost predicate Found(history: seq<Objects>, from: nat, to: nat, o: Objects) {
    exists t: nat :: from <= t <= to && t < |history| && history[t] == o
  }

  /** All listings come before all fetches. */
  ghost predicate ListsThenFetches(history: seq<Objects>, from: nat, mid: nat, to: nat, seen: seq<Objects>,
                                   got: map<string, Objects>)
  {
    && from <= mid <= to < |history|
    && (forall o | o in seen :: Found(history, from, mid, o))
    && (forall f | f in got :: Found(history, mid, to, got[f]))
  }

  method ListSegments(live: LiveStore, segments: seq<Segment>) returns (wanted: set<string>, ghost seen: seq<Objects>)
    requires live.now < |live.history|
    modifies live
    ensures old(live.now) <= live.now < |live.history|
    ensures |seen| == |segments| && wanted == Wanted(segments, seen)
    ensures forall o | o in seen :: Found(live.history, old(live.now), live.now, o)
  {
    seen, wanted := [], {};
    for i := 0 to |segments|
      invariant old(live.now) <= live.now < |live.history|
      invariant |seen| == i && wanted == Wanted(segments[..i], seen)
      invariant forall o | o in seen :: Found(live.history, old(live.now), live.now, o)
    {
      var o := live.Observe();
      wanted := wanted + Listed(o, segments[i].name);
      if segments[i].deletesFile.Some? {
        wanted := wanted + {segments[i].deletesFile.value};
      }
      assert segments[..i + 1][..i] == segments[..i] && (seen + [o])[..i] == seen;
      seen := seen + [o];
    }
    assert segments[..|segments|] == segments;
  }

  method FetchFiles(live: LiveStore, wanted: set<string>)
    returns (ok: bool, files: map<string, Blob>, ghost got: map<string, Objects>)
    requires live.now < |live.history|
    modifies live
    ensures old(live.now) <= live.now < |live.history|
    ensures got.Keys == wanted
    ensures forall f | f in got :: Found(live.history, old(live.now), live.now, got[f])
    ensures ok <==> forall f | f in wanted :: f in got[f]
    ensures ok ==> files == map f | f in wanted :: got[f][f]
  {
    got, files := map[], map[];
    var todo := wanted;
    while todo != {}
      invariant old(live.now) <= live.now < |live.history|
      invariant todo <= wanted && got.Keys == files.Keys == wanted - todo
      invariant forall f | f in got :: Found(live.history, old(live.now), live.now, got[f])
      invariant forall f | f in got :: f in got[f] && files[f] == got[f][f]
      decreases |todo|
    {
      var f :| f in todo;
      var o := live.Observe();
      if f !in o {
        // the files that are not asked for any more count as asked for now
        return false, map[], OthersAskedNow(wanted, got, o);
      }
      got, files, todo := got[f := o], files[f := o[f]], todo - {f};
    }
    ok := true;
    FetchesAre(wanted, got, files);
  }

  ghost function OthersAskedNow(wanted: set<string>, got: map<string, Objects>, o: Objects): (r: map<string, Objects>)
    ensures r.Keys == wanted && forall f | f in wanted :: r[f] == if f in got then got[f] else o
  {
    map f | f in wanted :: if f in got then got[f] else o
  }

  /** `restore_snapshot`, with the writer at work between any two of its requests. */
  method RestoreSnapshot(sha: string -> string, live: LiveStore, emptyRoot: bool, expected: Option<string>)
    returns (r: Outcome, ghost first: Objects, ghost seen: seq<Objects>, ghost got: map<string, Objects>,
             ghost mid: nat)
    requires live.now < |live.history|
    modifies live
    ensures old(live.now) <= mid <= live.now < |live.history|
    ensures Found(live.history, old(live.now), mid, first)
    ensures ListsThenFetches(live.history, old(live.now), mid, live.now, seen, got)
    ensures Screen(sha, emptyRoot, expected, first).None? ==> Covers(first[MANIFEST].manifest, seen, got)
    ensures r == Restore(sha, emptyRoot, expected, first, seen, got)
    ensures IsOutcome(sha, emptyRoot, expected, first, seen, got, r)
  {
    var o := live.Observe();
    first, seen, got, mid := o, [], map[], live.now;
    var screened := Screen(sha, emptyRoot, expected, o);
    if screened.Some? {
      RestoreHasOutcome(sha, emptyRoot, expected, first, seen, got);
      return screened.value, first, seen, got, mid;
    }
    var m := o[MANIFEST].manifest;
    var wanted, ok, files;
    wanted, seen := ListSegments(live, m.segments);
    mid := live.now;
    ok, files, got := FetchFiles(live, wanted);
    r := if ok then Restored(m, files) else Refused("a referenced file is no longer published");
    RestoreHasOutcome(sha, emptyRoot, expected, first, seen, got);
  }

  // ----------------------------------------------------------------------------------- exact copies

  /** Nothing in the store, and no file of another manifest, lies in a directory of `root`'s segments
      unless `root` has it: segment names are never reused for other contents. */
  ghost predicate OwnsItsDirectories(root: Root, keys: set<string>)
    requires root.manifest.Some?
  {
    forall k | k in keys && Referenced(root.manifest.value.segments, k) :: k in ManifestFiles(root)
  }

  ghost predicate NamesAreNotReused(sha: string -> string, g: Grace)
    requires InOneProcess(sha, g)
  {
    var root := g.first.root;
    && OwnsItsDirectories(root, g.w.objects.Keys)
    && OwnsItsDirectories(root, ManifestFiles(g.second.root))
    && OwnsItsDirectories(root, ManifestFiles(g.third.root))
    && (forall f | f in ManifestFiles(root) && f in g.w.objects ::
         f in root.files && g.w.objects[f] == Raw(root.files[f]))
  }

  ghost function LocalFiles(root: Root): map<string, Blob>
    requires Ready(root)
  {
    map f | f in ManifestFiles(root) :: Raw(root.files[f])
  }

  function FilesOf(keys: set<string>, segments: seq<Segment>): set<string> {
    (set k | k in keys && Referenced(segments, k)) + DeletesFiles(segments)
  }

  lemma FilesOfSnoc(keys: set<string>, init: seq<Segment>, s: Segment)
    ensures FilesOf(keys, init + [s]) ==
            FilesOf(keys, init) + (set k | k in keys && Under(s.name, k))
            + (if s.deletesFile.Some? then {s.deletesFile.value} else {})
  {
    forall k ensures Referenced(init + [s], k) <==> Referenced(init, k) || Under(s.name, k) {
      if Referenced(init, k) {
        var t :| t in init && Under(t.name, k);
        assert t in init + [s];
      }
      assert s in init + [s];
    }
    assert s in init + [s];
    assert DeletesFiles(init + [s]) == DeletesFiles(init) + (if s.deletesFile.Some? then {s.deletesFile.value} else {});
  }

  lemma {:induction false} WantedWhenListed(keys: set<string>, segments: seq<Segment>, seen: seq<Objects>)
    requires |seen| == |segments|
    requires forall i | 0 <= i < |segments| ::
               Listed(seen[i], segments[i].name) == set k | k in keys && Under(segments[i].name, k)
    ensures Wanted(segments, seen) == FilesOf(keys, segments)
    decreases |segments|
  {
    if segments != [] {
      var last := |segments| - 1;
      WantedWhenListed(keys, segments[..last], seen[..last]);
      FilesOfSnoc(keys, segments[..last], segments[last]);
      LastSplit(segments);
    }
  }

  lemma ListedInGrace(sha: string -> string, g: Grace, s: Segment, o: Objects)
    requires InOneProcess(sha, g) && NamesAreNotReused(sha, g) && InGrace(sha, g, o)
    requires s in g.first.root.manifest.value.segments
    ensures Listed(o, s.name) == set k | k in g.first.root.files.Keys && Under(s.name, k)
  {
    var root := g.first.root;
    forall k | Under(s.name, k) ensures k in o <==> k in root.files {
      SpecialsLieInNoDirectory(s.name, k);
      assert Referenced(root.manifest.value.segments, k);
      GraceKeepsFiles(sha, g, o, k);
      assert k in ManifestFiles(root) ==> k in root.files;
      assert k in root.files ==> k in ManifestFiles(root);
    }
  }

  lemma SpecialsLieInNoDirectory(segment: string, key: string)
    requires Under(segment, key)
    ensures key !in SPECIAL
  {
    assert key[|segment|] == '/';
    assert forall i | 0 <= i < |MANIFEST| :: MANIFEST[i] != '/';
    assert forall i | 0 <= i < |SNAPSHOT| :: SNAPSHOT[i] != '/';
    assert forall i | 0 <= i < |MARKER| :: MARKER[i] != '/';
  }

  /** A restore that read the first manifest and is over before the third publication deletes anything
      returns exactly the local files of the first, however its requests interleave. */
  lemma DownloadInGraceIsExact(sha: string -> string, g: Grace, seen: seq<Objects>, got: map<string, Objects>)
    requires InOneProcess(sha, g) && NamesAreNotReused(sha, g)
    requires Covers(g.first.root.manifest.value, seen, got)
    requires forall o | o in seen || o in got.Values :: InGrace(sha, g, o)
    ensures Download(g.first.root.manifest.value, seen, got)
            == Restored(g.first.root.manifest.value, LocalFiles(g.first.root))
  {
    var m := g.first.root.manifest.value;
    forall i | 0 <= i < |m.segments| ensures ListsLocally(g.first.root, m.segments[i].name, seen[i]) {
      ListedInGrace(sha, g, m.segments[i], seen[i]);
    }
    forall f | f in got && f in ManifestFiles(g.first.root) ensures HoldsLocally(g.first.root, f, got[f]) {
      assert got[f] in got.Values;
      FetchedInGrace(sha, g, got[f], f);
    }
    DownloadIsExact(g.first.root, seen, got);
  }

  ghost predicate ListsLocally(root: Root, segment: string, o: Objects) {
    Listed(o, segment) == set k | k in root.files.Keys && Under(segment, k)
  }

  ghost predicate HoldsLocally(root: Root, f: string, o: Objects) {
    f in o && f in root.files && o[f] == Raw(root.files[f])
  }

  lemma DownloadIsExact(root: Root, seen: seq<Objects>, got: map<string, Objects>)
    requires Ready(root) && Covers(root.manifest.value, seen, got)
    requires forall i | 0 <= i < |seen| :: ListsLocally(root, root.manifest.value.segments[i].name, seen[i])
    requires forall f | f in got && f in ManifestFiles(root) :: HoldsLocally(root, f, got[f])
    ensures Wanted(root.manifest.value.segments, seen) == ManifestFiles(root)
    ensures Download(root.manifest.value, seen, got) == Restored(root.manifest.value, LocalFiles(root))
  {
    WantedWhenListed(root.files.Keys, root.manifest.value.segments, seen);
    var files := FilesOf(root.files.Keys, root.manifest.value.segments);
    assert files == ManifestFiles(root);
    var local := LocalFiles(root);
    FetchesAre(files, got, local);
  }

  lemma FetchesAre(files: set<string>, got: map<string, Objects>, local: map<string, Blob>)
    requires files <= got.Keys && local.Keys == files
    requires forall f | f in files :: f in got[f] && got[f][f] == local[f]
    ensures (map f | f in files :: got[f][f]) == local
  {
  }

  lemma FetchedInGrace(sha: string -> string, g: Grace, o: Objects, f: string)
    requires InOneProcess(sha, g) && NamesAreNotReused(sha, g) && InGrace(sha, g, o)
    requires f in ManifestFiles(g.first.root)
    ensures f in o && f in g.first.root.files && o[f] == Raw(g.first.root.files[f])
  {
    assert Ready(g.first.root);
    GraceKeepsFiles(sha, g, o, f);
  }

  // ------------------------------------------------------------- the pointer and the version it names

  /** The version of a manifest together with its files, as `publish` computes it. */
  ghost function VersionOf(sha: string -> string, m: Manifest, files: map<string, Blob>): string {
    VersionCodec.SnapshotVersion(sha, m.bytes, map f | f in files :: sha(BytesOf(files[f])))
  }

  lemma ManifestInGrace(sha: string -> string, g: Grace, o: Objects)
    requires InOneProcess(sha, g) && InGrace(sha, g, o)
    ensures MANIFEST in o
    ensures || o[MANIFEST] == SegmentsManifest(g.first.root.manifest.value)
            || o[MANIFEST] == SegmentsManifest(g.second.root.manifest.value)
            || o[MANIFEST] == SegmentsManifest(g.third.root.manifest.value)
  {
    var w1 := After(sha, g.w, g.first);
    var w2 := After(sha, w1, g.second);
    ManifestDuring(sha, g.w, g.first, Steps(sha, g.w, g.first));
    ManifestDuring(sha, w1, g.second, Steps(sha, w1, g.second));
    if n: nat :| |PublicationIn(g.w, g.first).uploads| < n <= Steps(sha, g.w, g.first)
                 && o == During(sha, g.w, g.first, n) {
      ManifestDuring(sha, g.w, g.first, n);
    } else if n: nat :| n <= Steps(sha, w1, g.second) && o == During(sha, w1, g.second, n) {
      ManifestDuring(sha, w1, g.second, n);
    } else {
      var n: nat :| n <= Steps(sha, w2, g.third) && n <= |PublicationIn(w2, g.third).uploads| + 3
                    && o == During(sha, w2, g.third, n);
      ManifestDuring(sha, w2, g.third, n);
    }
  }

  lemma ManifestDuring(sha: string -> string, w: Writer, e: Event, n: nat)
    requires Possible(sha, w, e) && n <= Steps(sha, w, e)
    ensures var o := During(sha, w, e, n);
            var u := |PublicationIn(w, e).uploads|;
            && (n > u ==> MANIFEST in o && o[MANIFEST] == SegmentsManifest(e.root.manifest.value))
            && (n <= u && MANIFEST in w.objects ==> MANIFEST in o && o[MANIFEST] == w.objects[MANIFEST])
    ensures e.Published? ==> Steps(sha, w, e) > |PublicationIn(w, e).uploads|
  {
    PublicationIsLegal(e.root, e.version, w.objects.Keys, w.previous);
    StoreShape(sha, w.objects, PublicationIn(w, e), w.previous, n);
  }

  /** Decoding is a function of the bytes. */
  ghost predicate DecodesUniquely(g: Grace)
    requires g.first.root.manifest.Some? && g.second.root.manifest.Some? && g.third.root.manifest.Some?
  {
    var m := g.first.root.manifest.value;
    && (g.second.root.manifest.value.bytes == m.bytes ==> g.second.root.manifest.value == m)
    && (g.third.root.manifest.value.bytes == m.bytes ==> g.third.root.manifest.value == m)
  }

  /** A reader that took `snapshot.json` of the first publication, demands its hash and is over before the
      third deletes anything, is either refused or holds exactly what that version was computed from. */
  lemma PointerRestoreIsConsistent(sha: string -> string, g: Grace, pointer: Blob,
                                   first: Objects, seen: seq<Objects>, got: map<string, Objects>)
    requires VersionCodec.CollisionFree(sha)
    requires InOneProcess(sha, g) && NamesAreNotReused(sha, g) && DecodesUniquely(g)
    requires var m := g.first.root.manifest.value;
             && g.first.version == VersionOf(sha, m, LocalFiles(g.first.root))
             && pointer == Pointer(g.first.version, sha(m.bytes))
    requires InGrace(sha, g, first)
    requires forall o | o in seen || o in got.Values :: InGrace(sha, g, o)
    requires Screen(sha, true, Some(pointer.manifestSha), first).None? ==> Covers(first[MANIFEST].manifest, seen, got)
    ensures match Restore(sha, true, Some(pointer.manifestSha), first, seen, got)
            case NothingPublished => false
            case Refused(_) => first[MANIFEST] != SegmentsManifest(g.first.root.manifest.value)
            case Restored(m, files) =>
              && m == g.first.root.manifest.value && files == LocalFiles(g.first.root)
              && VersionOf(sha, m, files) == pointer.version
  {
    ManifestInGrace(sha, g, first);
    if first[MANIFEST] == SegmentsManifest(g.first.root.manifest.value) {
      DownloadInGraceIsExact(sha, g, seen, got);
    }
  }

  // --------------------------------------------------------------------------- losing files silently

  /** The store holds nothing in `root`'s directories that differs from `root`. */
  ghost predicate NothingForeign(root: Root, o: Objects)
    requires root.manifest.Some?
  {
    && OwnsItsDirectories(root, o.Keys)
    && forall f | f in ManifestFiles(root) && f in o :: f in root.files && o[f] == Raw(root.files[f])
  }

  lemma {:induction false} WantedIsReferenced(root: Root, segments: seq<Segment>, seen: seq<Objects>)
    requires root.manifest.Some? && |seen| == |segments|
    requires forall o | o in seen :: NothingForeign(root, o)
    requires forall s | s in segments :: s in root.manifest.value.segments
    ensures Wanted(segments, seen) <= ManifestFiles(root)
    decreases |segments|
  {
    if segments != [] {
      var last := |segments| - 1;
      assert seen[last] in seen && segments[last] in segments;
      WantedIsReferenced(root, segments[..last], seen[..last]);
      forall k | k in Listed(seen[last], segments[last].name) ensures k in ManifestFiles(root) {
        assert Referenced(root.manifest.value.segments, k);
      }
    }
  }

  // ------------------------------------------------------------------- what a reader finds meanwhile

  /** The files that the manifest refers to, as far as the store has them. */
  function FilesFound(o: Objects, m: Manifest): map<string, Blob> {
    map f | f in o && f in FilesOf(o.Keys, m.segments) :: o[f]
  }

  /** Segment names are not reused: what is published adds no file to the snapshot that readers find now. */
  ghost predicate AddsNothingTo(objects: Objects, files: set<string>, found: Option<Manifest>) {
    found.Some? ==>
      && DeletesFiles(found.value.segments) !! SPECIAL
      && forall f | f in files && (Referenced(found.value.segments, f) || f in DeletesFiles(found.value.segments)) ::
           f in objects
  }

  ghost predicate IsOf(m: Manifest, f: string) {
    Referenced(m.segments, f) || f in DeletesFiles(m.segments)
  }

  lemma SameFilesFound(o: Objects, objects: Objects, m: Manifest)
    requires forall f | IsOf(m, f) :: f in o <==> f in objects
    requires forall f | IsOf(m, f) && f in o :: o[f] == objects[f]
    ensures FilesFound(o, m) == FilesFound(objects, m)
  {
    forall f ensures f in FilesFound(o, m) <==> f in FilesFound(objects, m) { assert IsOf(m, f) || !IsOf(m, f); }
  }

  lemma LocalFilesFound(o: Objects, root: Root)
    requires Ready(root) && forall f | f in ManifestFiles(root) ::
               f in o && f in root.files && o[f] == Raw(root.files[f])
    requires forall f | IsOf(root.manifest.value, f) && f in o :: f in ManifestFiles(root)
    ensures FilesFound(o, root.manifest.value) == LocalFiles(root)
  {
    var m := root.manifest.value;
    forall f ensures f in FilesFound(o, m) <==> f in ManifestFiles(root) { assert IsOf(m, f) || !IsOf(m, f); }
  }

  lemma FoundBeforeCommit(sha: string -> string, objects: Objects, p: Publication, previous: set<string>, n: nat)
    requires Legal(p, objects.Keys, previous) && n <= |p.uploads| + 3 + |p.deletes| && n <= |p.uploads|
    requires AddsNothingTo(objects, ManifestFiles(p.root), ManifestIn(objects)) && ManifestIn(objects).Some?
    ensures |Ops(sha, p)| == |p.uploads| + 3 + |p.deletes|
    ensures var o, m := StoreAt(sha, objects, p, n), ManifestIn(objects);
            ManifestIn(o) == m && FilesFound(o, m.value) == FilesFound(objects, m.value)
  {
    OpsPrefix(sha, p, n);
    StoreShape(sha, objects, p, previous, n);
    NamesOfPublication(p, objects.Keys, previous);
    var o, segments := StoreAt(sha, objects, p, n), ManifestIn(objects).value.segments;
    assert Deleted(p, n) == [];
    forall f | IsOf(ManifestIn(objects).value, f)
      ensures f !in SPECIAL && (f in o <==> f in objects) && (f in o ==> o[f] == objects[f])
    {
      if Referenced(segments, f) {
        var s :| s in segments && Under(s.name, f);
        SpecialsLieInNoDirectory(s.name, f);
      }
    }
    SameFilesFound(o, objects, ManifestIn(objects).value);
  }

  lemma FoundAfterCommit(sha: string -> string, objects: Objects, p: Publication, previous: set<string>, n: nat)
    requires Legal(p, objects.Keys, previous) && |p.uploads| < n <= |p.uploads| + 3 + |p.deletes|
    requires NothingForeign(p.root, objects)
    ensures |Ops(sha, p)| == |p.uploads| + 3 + |p.deletes|
    ensures var o := StoreAt(sha, objects, p, n);
            ManifestIn(o) == p.root.manifest && FilesFound(o, p.root.manifest.value) == LocalFiles(p.root)
  {
    OpsPrefix(sha, p, n);
    StoreShape(sha, objects, p, previous, n);
    NamesOfPublication(p, objects.Keys, previous);
    var o, segments := StoreAt(sha, objects, p, n), p.root.manifest.value.segments;
    assert Uploaded(p, n) == p.uploads;
    forall f | IsOf(p.root.manifest.value, f) && f in o ensures f in ManifestFiles(p.root) {
      if Referenced(segments, f) {
        var s :| s in segments && Under(s.name, f);
        SpecialsLieInNoDirectory(s.name, f);
      }
    }
    forall f | f in ManifestFiles(p.root) ensures f in o && o[f] == Raw(p.root.files[f]) {}
    LocalFilesFound(o, p.root);
  }

  // ------------------------------------------------------------------ two runs that lose a snapshot

  function OneSegment(name: string): Root {
    Root(Some(Manifest(name, [Segment(name, None)])), {name}, map[name + "/x" := "postings"])
  }

  lemma OneSegmentFiles(name: string)
    ensures Ready(OneSegment(name)) && ManifestFiles(OneSegment(name)) == {name + "/x"}
  {
    SpecialsLieInNoDirectory(name, name + "/x");
    var segments := OneSegment(name).manifest.value.segments;
    assert Segment(name, None) in segments;
    assert DeletesFiles(segments) == {};
  }

  lemma NotInDirectoryA(k: string)
    requires k in SPECIAL || k == "b" + "/x" || k == "c" + "/x"
    ensures !Under("a", k)
  {
    if k in SPECIAL {
      if Under("a", k) { SpecialsLieInNoDirectory("a", k); }
    } else {
      assert k[0] != ("a" + "/")[0];
    }
  }

  /** Whoever lists segment `a` after a publication that keeps nothing of it finds an empty directory. */
  lemma ListsNothing(sha: string -> string, w: Writer, e: Event)
    requires e.Published? && Possible(sha, w, e) && (e.root == OneSegment("b") || e.root == OneSegment("c"))
    requires w.previous <= {"b" + "/x"}
    ensures var m := OneSegment("a").manifest.value;
            var o := After(sha, w, e).objects;
            Covers(m, [o], map[]) && Download(m, [o], map[]) == Restored(m, map[])
  {
    NothingElseSurvives(sha, w, e);
    OneSegmentFiles("b");
    OneSegmentFiles("c");
    DownloadsNothing(After(sha, w, e).objects);
  }

  lemma DownloadsNothing(o: Objects)
    requires o.Keys - SPECIAL <= {"b" + "/x", "c" + "/x"}
    ensures var m := OneSegment("a").manifest.value;
            Covers(m, [o], map[]) && Download(m, [o], map[]) == Restored(m, map[])
  {
    forall k | k in o ensures !Under("a", k) {
      assert k in SPECIAL || k in o.Keys - SPECIAL;
      NotInDirectoryA(k);
    }
    assert Listed(o, "a") == {};
    var m := OneSegment("a").manifest.value;
    assert m.segments[..0] == [] && m.segments[0] == Segment("a", None);
    assert Wanted(m.segments, [o]) == {};
  }

  lemma TwoEvents(sha: string -> string, w: Writer, e0: Event, e1: Event)
    requires Possible(sha, w, e0) && Possible(sha, After(sha, w, e0), e1)
    ensures PossibleRun(sha, w, [e0, e1])
    ensures Run(sha, w, [e0, e1]) == After(sha, After(sha, w, e0), e1)
  {
    FirstEvent(sha, After(sha, w, e0), e1, [], [e1]);
    FirstEvent(sha, w, e0, [e1], [e0, e1]);
  }

  lemma ThreeEvents(sha: string -> string, w: Writer, e0: Event, e1: Event, e2: Event)
    requires Possible(sha, w, e0) && Possible(sha, After(sha, w, e0), e1)
    requires Possible(sha, After(sha, After(sha, w, e0), e1), e2)
    ensures PossibleRun(sha, w, [e0, e1, e2])
    ensures Run(sha, w, [e0, e1, e2]) == After(sha, After(sha, After(sha, w, e0), e1), e2)
  {
    TwoEvents(sha, After(sha, w, e0), e1, e2);
    FirstEvent(sha, w, e0, [e1, e2], [e0, e1, e2]);
  }

  lemma FirstEvent(sha: string -> string, w: Writer, e: Event, rest: seq<Event>, all: seq<Event>)
    requires Possible(sha, w, e) && PossibleRun(sha, After(sha, w, e), rest) && all == [e] + rest
    ensures PossibleRun(sha, w, all) && Run(sha, w, all) == Run(sha, After(sha, w, e), rest)
  {
    assert all[0] == e && all[1..] == rest;
  }

  /** The restore of snapshot `a` out of the store a run leaves succeeds, although it copies nothing. */
  ghost predicate LosesSnapshotA(sha: string -> string, es: seq<Event>) {
    var w := Writer(map[], {}, None);
    var m := OneSegment("a").manifest.value;
    && es != [] && es[0] == Published(OneSegment("a"), "") && ManifestFiles(OneSegment("a")) == {"a" + "/x"}
    && PossibleRun(sha, w, es)
    && (var o := Run(sha, w, es).objects;
        && Covers(m, [o], map[])
        && Download(m, [o], map[]) == Restored(m, map[]))
  }

  lemma PublishingIsPossible(sha: string -> string, w: Writer, name: string)
    ensures var e := Published(OneSegment(name), "");
            Possible(sha, w, e) && After(sha, w, e).previous == {name + "/x"}
  {
    OneSegmentFiles(name);
  }

  lemma RestartIsPossible(sha: string -> string, w: Writer)
    ensures var e := Crashed(OneSegment("b"), "", 0);
            Possible(sha, w, e) && After(sha, w, e).previous == {}
  {
    OneSegmentFiles("b");
  }

  /** A new process forgets the previous files, so one publication after a restart already loses a reader
      its snapshot. */
  lemma NoGraceAfterRestart(sha: string -> string)
    ensures LosesSnapshotA(sha,
                           [Published(OneSegment("a"), ""), Crashed(OneSegment("b"), "", 0),
                            Published(OneSegment("b"), "")])
  {
    var w := Writer(map[], {}, None);
    var a, b, restart := Published(OneSegment("a"), ""), Published(OneSegment("b"), ""),
                         Crashed(OneSegment("b"), "", 0);
    PublishingIsPossible(sha, w, "a");
    RestartIsPossible(sha, After(sha, w, a));
    var w2 := After(sha, After(sha, w, a), restart);
    PublishingIsPossible(sha, w2, "b");
    ListsNothing(sha, w2, b);
    ThreeEvents(sha, w, a, restart, b);
  }

  /** Two further publications of the same process always do. */
  lemma NoGraceForTwoGenerations(sha: string -> string)
    ensures LosesSnapshotA(sha,
                           [Published(OneSegment("a"), ""), Published(OneSegment("b"), ""),
                            Published(OneSegment("c"), "")])
  {
    var w := Writer(map[], {}, None);
    var a, b, c := Published(OneSegment("a"), ""), Published(OneSegment("b"), ""), Published(OneSegment("c"), "");
    PublishingIsPossible(sha, w, "a");
    PublishingIsPossible(sha, After(sha, w, a), "b");
    var w2 := After(sha, After(sha, w, a), b);
    PublishingIsPossible(sha, w2, "c");
    ListsNothing(sha, w2, c);
    ThreeEvents(sha, w, a, b, c);
  }
}
