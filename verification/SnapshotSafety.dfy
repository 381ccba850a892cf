/**
 Whole lives of the single writer: publications one after the other, cut anywhere by a crash after
 which a new process lists the store and remembers nothing else.
 */
module SnapshotSafety {
  import opened Wrappers
  import opened ObjectStore
  import opened Snapshot
  import Lex

  /** What one writer process works from; `published` is the root its readers find. */
  datatype Writer = Writer(objects: Objects, previous: set<string>, published: Option<Root>)

  /**
   A publication that returns; one that stops after `done` requests and is followed by a restart; or one that raises
   there, while the process goes on and remembers the files of its last success.
   */
  datatype Event =
    | Published(root: Root, version: string)
    | Crashed(root: Root, version: string, done: nat)
    | Failed(root: Root, version: string, done: nat)

  ghost function PublicationIn(w: Writer, e: Event): Publication
    requires Ready(e.root)
  {
    PublicationOf(e.root, e.version, w.objects.Keys, w.previous)
  }

  ghost function Steps(sha: string -> string, w: Writer, e: Event): nat
    requires Ready(e.root)
  {
    match e
    case Published(_, _) =>
      PublicationIsLegal(e.root, e.version, w.objects.Keys, w.previous);
      |Ops(sha, PublicationIn(w, e))|
    case Crashed(_, _, done) => done
    case Failed(_, _, done) => done
  }

  ghost predicate Possible(sha: string -> string, w: Writer, e: Event) {
    && Ready(e.root)
    && (PublicationIsLegal(e.root, e.version, w.objects.Keys, w.previous);
        Steps(sha, w, e) <= |Ops(sha, PublicationIn(w, e))|)
  }

  /** The store after `n` requests of `e`. */
  ghost function During(sha: string -> string, w: Writer, e: Event, n: nat): Objects
    requires Possible(sha, w, e) && n <= Steps(sha, w, e)
  {
    PublicationIsLegal(e.root, e.version, w.objects.Keys, w.previous);
    StoreAt(sha, w.objects, PublicationIn(w, e), n)
  }

  ghost function PublishedDuring(w: Writer, e: Event, n: nat): Option<Root>
    requires Ready(e.root)
  {
    if n > |PublicationIn(w, e).uploads| then Some(e.root) else w.published
  }

  ghost function After(sha: string -> string, w: Writer, e: Event): Writer
    requires Possible(sha, w, e)
  {
    var n := Steps(sha, w, e);
    Writer(During(sha, w, e, n),
           if e.Published? then ManifestFiles(e.root) else if e.Failed? then w.previous else {},
           PublishedDuring(w, e, n))
  }

  ghost predicate PossibleRun(sha: string -> string, w: Writer, es: seq<Event>)
    decreases |es|
  {
    es == [] || (Possible(sha, w, es[0]) && PossibleRun(sha, After(sha, w, es[0]), es[1..]))
  }

  ghost function Run(sha: string -> string, w: Writer, es: seq<Event>): Writer
    requires PossibleRun(sha, w, es)
    decreases |es|
  {
    if es == [] then w else Run(sha, After(sha, w, es[0]), es[1..])
  }

  /** `segments.json` is the manifest of `published`, and every file it references is in the store. */
  ghost predicate Complete(objects: Objects, published: Option<Root>) {
    match published
    case None => MANIFEST !in objects
    case Some(root) =>
      && root.manifest.Some?
      && MANIFEST in objects && objects[MANIFEST] == SegmentsManifest(root.manifest.value)
      && ManifestFiles(root) <= objects.Keys
      && ManifestFiles(root) !! SPECIAL
  }

  lemma EventKeepsComplete(sha: string -> string, w: Writer, e: Event, n: nat)
    requires Complete(w.objects, w.published)
    requires Possible(sha, w, e) && n <= Steps(sha, w, e)
    ensures Complete(During(sha, w, e, n), PublishedDuring(w, e, n))
  {
    var p := PublicationIn(w, e);
    PublicationIsLegal(e.root, e.version, w.objects.Keys, w.previous);
    NamesOfPublication(p, w.objects.Keys, w.previous);
    StoreShape(sha, w.objects, p, w.previous, n);
    if n > |p.uploads| {
      assert Uploaded(p, n) == p.uploads;
    } else {
      assert Deleted(p, n) == [];
    }
  }

  /** Safety: whatever crashes a run contains, no state of the store ever lacks a referenced file. */
  lemma {:induction false} EveryStoreIsComplete(sha: string -> string, w: Writer, es: seq<Event>, i: nat, n: nat)
    requires Complete(w.objects, w.published)
    requires PossibleRun(sha, w, es) && i < |es|
    ensures PossibleRun(sha, w, es[..i]) && Possible(sha, Run(sha, w, es[..i]), es[i])
    ensures var at := Run(sha, w, es[..i]);
            n <= Steps(sha, at, es[i]) ==>
              Complete(During(sha, at, es[i], n), PublishedDuring(at, es[i], n))
    decreases |es|
  {
    if i == 0 {
      if n <= Steps(sha, w, es[0]) { EventKeepsComplete(sha, w, es[0], n); }
    } else {
      EventKeepsComplete(sha, w, es[0], Steps(sha, w, es[0]));
      assert es[..i][1..] == es[1..][..i - 1];
      EveryStoreIsComplete(sha, After(sha, w, es[0]), es[1..], i - 1, n);
    }
  }

  /** Nothing is leaked: a completed publication leaves its files and the grace of the one before. */
  lemma NothingElseSurvives(sha: string -> string, w: Writer, e: Event)
    requires e.Published? && Possible(sha, w, e)
    ensures After(sha, w, e).objects.Keys - SPECIAL ==
            ManifestFiles(e.root) + (w.objects.Keys * w.previous - SPECIAL)
  {
    var p := PublicationIn(w, e);
    PublicationIsLegal(e.root, e.version, w.objects.Keys, w.previous);
    NamesOfPublication(p, w.objects.Keys, w.previous);
    StoreShape(sha, w.objects, p, w.previous, Steps(sha, w, e));
    assert Uploaded(p, Steps(sha, w, e)) == p.uploads && Deleted(p, Steps(sha, w, e)) == p.deletes;
  }

  /** A file already in the store is never uploaded again: what is published is the local copy exactly when
      the names already there hold the same bytes. */
  lemma PublishedIsLocalIff(sha: string -> string, w: Writer, e: Event)
    requires e.Published? && Possible(sha, w, e)
    ensures var after := After(sha, w, e).objects;
            ManifestFiles(e.root) <= after.Keys && ManifestFiles(e.root) <= e.root.files.Keys
    ensures var after := After(sha, w, e).objects;
            (forall f | f in ManifestFiles(e.root) :: after[f] == Raw(e.root.files[f])) <==>
            (forall f | f in ManifestFiles(e.root) && f in w.objects :: w.objects[f] == Raw(e.root.files[f]))
  {
    var p := PublicationIn(w, e);
    var after := After(sha, w, e).objects;
    PublicationIsLegal(e.root, e.version, w.objects.Keys, w.previous);
    NamesOfPublication(p, w.objects.Keys, w.previous);
    StoreShape(sha, w.objects, p, w.previous, Steps(sha, w, e));
    assert Uploaded(p, Steps(sha, w, e)) == p.uploads;
    forall f | f in ManifestFiles(e.root) && f in w.objects ensures f in after && after[f] == w.objects[f] {}
  }

  // ---------------------------------------------------------------------------- one generation of grace

  /** Which files of an earlier manifest outlive one whole publication: those `keep` mentions. */
  lemma SurvivesPublicationIff(sha: string -> string, w: Writer, e: Event, files: set<string>)
    requires e.Published? && Possible(sha, w, e)
    requires files <= w.objects.Keys && files !! SPECIAL
    ensures files <= After(sha, w, e).objects.Keys <==> files <= ManifestFiles(e.root) + w.previous
  {
    NothingElseSurvives(sha, w, e);
    var after := After(sha, w, e).objects.Keys;
    assert files <= after <==> files <= after - SPECIAL;
  }

  /**
   A publication that has replaced the manifest and then raises, or dies, is what readers find, but the next one does
   not know of it: its files outlive that one exactly if they are referenced there, or are also files of the last
   publication that returned.
   */
  lemma GraceAfterInterruptionIff(sha: string -> string, w: Writer, e: Event, next: Event)
    requires !e.Published? && Possible(sha, w, e) && |PublicationIn(w, e).uploads| < Steps(sha, w, e)
    requires next.Published? && Possible(sha, After(sha, w, e), next)
    ensures After(sha, w, e).published == Some(e.root)
    ensures ManifestFiles(e.root) <= After(sha, After(sha, w, e), next).objects.Keys
            <==> ManifestFiles(e.root) <= ManifestFiles(next.root) + if e.Failed? then w.previous else {}
  {
    var p := PublicationIn(w, e);
    PublicationIsLegal(e.root, e.version, w.objects.Keys, w.previous);
    NamesOfPublication(p, w.objects.Keys, w.previous);
    StoreShape(sha, w.objects, p, w.previous, Steps(sha, w, e));
    assert Uploaded(p, Steps(sha, w, e)) == p.uploads;
    SurvivesPublicationIff(sha, After(sha, w, e), next, ManifestFiles(e.root));
  }

  /** Three consecutive publications of one process, the last one stopped before its deletions. */
  datatype Grace = Grace(w: Writer, first: Event, second: Event, third: Event)

  ghost predicate InOneProcess(sha: string -> string, g: Grace) {
    && g.first.Published? && g.second.Published? && g.third.Published?
    && Possible(sha, g.w, g.first)
    && (var w1 := After(sha, g.w, g.first);
        && Possible(sha, w1, g.second)
        && Possible(sha, After(sha, w1, g.second), g.third))
  }

  /** Every store from the first commit up to the third publication's first deletion. */
  ghost predicate InGrace(sha: string -> string, g: Grace, o: Objects)
    requires InOneProcess(sha, g)
  {
    var w1 := After(sha, g.w, g.first);
    var w2 := After(sha, w1, g.second);
    || (exists n: nat :: |PublicationIn(g.w, g.first).uploads| < n <= Steps(sha, g.w, g.first)
                    && o == During(sha, g.w, g.first, n))
    || (exists n: nat :: n <= Steps(sha, w1, g.second) && o == During(sha, w1, g.second, n))
    || (exists n: nat :: n <= Steps(sha, w2, g.third) && n <= |PublicationIn(w2, g.third).uploads| + 3
                    && o == During(sha, w2, g.third, n))
  }

  /** The value a file of the first manifest has in the store. */
  ghost function StoredAs(w: Writer, root: Root, f: string): Blob
    requires root.manifest.Some? && f in ManifestFiles(root) && f in root.files
  {
    if f in w.objects then w.objects[f] else Raw(root.files[f])
  }

  lemma FileDuringPublication(sha: string -> string, w: Writer, e: Event, n: nat, f: string)
    requires Possible(sha, w, e) && n <= Steps(sha, w, e) && f !in SPECIAL
    ensures var o := During(sha, w, e, n);
            var p := PublicationIn(w, e);
            && (f in w.objects && (f in ManifestFiles(e.root) || f in w.previous || n <= |p.uploads| + 3) ==>
                  f in o && o[f] == w.objects[f])
            && (f in ManifestFiles(e.root) && f in e.root.files && n > |p.uploads| ==>
                  f in o && o[f] == StoredAs(w, e.root, f))
            && (f in o ==> f in w.objects || f in ManifestFiles(e.root))
  {
    var p := PublicationIn(w, e);
    PublicationIsLegal(e.root, e.version, w.objects.Keys, w.previous);
    NamesOfPublication(p, w.objects.Keys, w.previous);
    StoreShape(sha, w.objects, p, w.previous, n);
    if n > |p.uploads| { assert Uploaded(p, n) == p.uploads; }
    if n <= |p.uploads| + 3 { assert Deleted(p, n) == []; }
  }

  /** A file of the first manifest is there, unchanged, and no file but those of the three manifests is new. */
  ghost predicate IsKept(sha: string -> string, g: Grace, o: Objects, f: string)
    requires InOneProcess(sha, g)
  {
    && (f in ManifestFiles(g.first.root) ==>
          f in g.first.root.files && f in o && o[f] == StoredAs(g.w, g.first.root, f))
    && (f in o ==> (f in g.w.objects || f in ManifestFiles(g.first.root)
                    || f in ManifestFiles(g.second.root) || f in ManifestFiles(g.third.root)))
  }

  lemma KeptByTheFirst(sha: string -> string, g: Grace, n: nat, f: string)
    requires InOneProcess(sha, g) && f !in SPECIAL
    requires |PublicationIn(g.w, g.first).uploads| < n <= Steps(sha, g.w, g.first)
    ensures IsKept(sha, g, During(sha, g.w, g.first, n), f)
  {
    FileDuringPublication(sha, g.w, g.first, n, f);
    PublicationIsLegal(g.first.root, g.first.version, g.w.objects.Keys, g.w.previous);
  }

  lemma CommitsAfterUploading(sha: string -> string, w: Writer, e: Event)
    requires e.Published? && Possible(sha, w, e)
    ensures |PublicationIn(w, e).uploads| < Steps(sha, w, e)
  {
    PublicationIsLegal(e.root, e.version, w.objects.Keys, w.previous);
    OpsPrefix(sha, PublicationIn(w, e), 0);
  }

  lemma KeptAfterTheFirst(sha: string -> string, g: Grace, f: string)
    requires InOneProcess(sha, g) && f !in SPECIAL
    ensures IsKept(sha, g, After(sha, g.w, g.first).objects, f)
  {
    CommitsAfterUploading(sha, g.w, g.first);
    KeptByTheFirst(sha, g, Steps(sha, g.w, g.first), f);
  }

  lemma KeptByTheSecond(sha: string -> string, g: Grace, n: nat, f: string)
    requires InOneProcess(sha, g) && f !in SPECIAL
    requires n <= Steps(sha, After(sha, g.w, g.first), g.second)
    ensures IsKept(sha, g, During(sha, After(sha, g.w, g.first), g.second, n), f)
  {
    KeptAfterTheFirst(sha, g, f);
    FileDuringPublication(sha, After(sha, g.w, g.first), g.second, n, f);
  }

  lemma KeptByTheThird(sha: string -> string, g: Grace, n: nat, f: string)
    requires InOneProcess(sha, g) && f !in SPECIAL
    requires var w2 := After(sha, After(sha, g.w, g.first), g.second);
             n <= Steps(sha, w2, g.third) && n <= |PublicationIn(w2, g.third).uploads| + 3
    ensures IsKept(sha, g, During(sha, After(sha, After(sha, g.w, g.first), g.second), g.third, n), f)
  {
    var w1 := After(sha, g.w, g.first);
    KeptByTheSecond(sha, g, Steps(sha, w1, g.second), f);
    FileDuringPublication(sha, After(sha, w1, g.second), g.third, n, f);
  }

  /** All files of the first manifest stay, unchanged, until the third publication starts deleting; and
      nothing appears but files of the three manifests. */
  lemma GraceKeepsFiles(sha: string -> string, g: Grace, o: Objects, f: string)
    requires InOneProcess(sha, g) && InGrace(sha, g, o) && f !in SPECIAL
    ensures f in ManifestFiles(g.first.root) ==>
              f in g.first.root.files && f in o && o[f] == StoredAs(g.w, g.first.root, f)
    ensures f in o ==> (f in g.w.objects || f in ManifestFiles(g.first.root)
                        || f in ManifestFiles(g.second.root) || f in ManifestFiles(g.third.root))
  {
    var w1 := After(sha, g.w, g.first);
    var w2 := After(sha, w1, g.second);
    if n: nat :| |PublicationIn(g.w, g.first).uploads| < n <= Steps(sha, g.w, g.first)
                 && o == During(sha, g.w, g.first, n) {
      KeptByTheFirst(sha, g, n, f);
    } else if n: nat :| n <= Steps(sha, w1, g.second) && o == During(sha, w1, g.second, n) {
      KeptByTheSecond(sha, g, n, f);
    } else {
      var n: nat :| n <= Steps(sha, w2, g.third) && n <= |PublicationIn(w2, g.third).uploads| + 3
                    && o == During(sha, w2, g.third, n);
      KeptByTheThird(sha, g, n, f);
    }
  }
}
