/**
 What becomes of readers that restore an earlier snapshot while the writer publishes the next one and deletes files
 that the earlier one still refers to (src/beacon_scale_infra/incremental/snapshot.py).
 */
module SnapshotReaders {
  import opened Wrappers
  import opened Collections
  import opened ObjectStore
  import opened Snapshot
  import opened SnapshotSafety
  import opened SnapshotRestore
  import Lex

  lemma FetchesAreLocalIff(wanted: set<string>, got: map<string, Objects>, local: map<string, Blob>)
    requires wanted <= got.Keys && wanted <= local.Keys
    requires forall f | f in wanted :: f in got[f] && got[f][f] == local[f]
    ensures var files := map f | f in wanted :: got[f][f];
            && files.Keys == wanted && (forall f | f in wanted :: files[f] == local[f])
            && (files == local <==> local.Keys <= wanted)
  {
    if local.Keys <= wanted { FetchesAre(wanted, got, local); }
    assert (map f | f in wanted :: got[f][f]).Keys == wanted;
  }

  /** A restore never invents contents; it is complete or an error unless a listing came too late. */
  lemma CompleteOrErrorIff(root: Root, seen: seq<Objects>, got: map<string, Objects>)
    requires Ready(root) && Covers(root.manifest.value, seen, got)
    requires forall o | o in seen || o in got.Values :: NothingForeign(root, o)
    ensures var wanted := Wanted(root.manifest.value.segments, seen);
            var r := Download(root.manifest.value, seen, got);
            && (r.Restored? ==> r.files.Keys <= LocalFiles(root).Keys)
            && (r.Restored? ==> forall f | f in r.files :: r.files[f] == LocalFiles(root)[f])
            && ((r.Refused? || r == Restored(root.manifest.value, LocalFiles(root))) <==>
                ((exists f | f in wanted :: f !in got[f]) || ManifestFiles(root) <= wanted))
  {
    var m := root.manifest.value;
    WantedIsReferenced(root, m.segments, seen);
    var wanted, local := Wanted(m.segments, seen), LocalFiles(root);
    if forall f | f in wanted :: f in got[f] {
      forall f | f in wanted ensures got[f][f] == local[f] { assert got[f] in got.Values; }
      FetchesAreLocalIff(wanted, got, local);
    }
  }

  // ------------------------------------------------------------------------- readers of a dwindling store

  function TombstonesOf(root: Root): set<string>
    requires root.manifest.Some?
  {
    DeletesFiles(root.manifest.value.segments)
  }

  /** What the documentation promises: the whole snapshot, or an explicit error. */
  ghost predicate CompleteOrError(root: Root, seen: seq<Objects>, got: map<string, Objects>)
    requires Ready(root) && Covers(root.manifest.value, seen, got)
  {
    var r := Download(root.manifest.value, seen, got);
    r.Refused? || r == Restored(root.manifest.value, LocalFiles(root))
  }

  /** A reader of `root` whose requests land anywhere in this history, one after the other. */
  ghost predicate IsReading(root: Root, history: seq<Objects>, mid: nat, seen: seq<Objects>, got: map<string, Objects>)
    requires root.manifest.Some? && history != []
  {
    Covers(root.manifest.value, seen, got) && ListsThenFetches(history, 0, mid, |history| - 1, seen, got)
  }

  ghost predicate EveryReaderIsServed(root: Root, history: seq<Objects>)
    requires Ready(root) && history != []
  {
    forall mid: nat, seen, got | IsReading(root, history, mid, seen, got) :: CompleteOrError(root, seen, got)
  }

  /** A file of `root` that is gone does not come back. */
  ghost predicate Dwindles(root: Root, history: seq<Objects>)
    requires root.manifest.Some?
  {
    forall f, i, k | f in ManifestFiles(root) && 0 <= i <= k < |history| && f in history[k] :: f in history[i]
  }

  /** Some files are gone, but not a tombstone file: these alone are fetched by name. */
  ghost predicate LosesSilently(root: Root, o: Objects)
    requires root.manifest.Some?
  {
    !(ManifestFiles(root) <= o.Keys) && TombstonesOf(root) <= o.Keys
  }

  lemma {:induction false} FullListingsWantAll(root: Root, segments: seq<Segment>, seen: seq<Objects>)
    requires root.manifest.Some? && |seen| == |segments|
    requires forall o | o in seen :: ManifestFiles(root) <= o.Keys
    ensures forall f | f in ManifestFiles(root) && Referenced(segments, f) :: f in Wanted(segments, seen)
    ensures DeletesFiles(segments) <= Wanted(segments, seen)
    decreases |segments|
  {
    if segments != [] {
      var last := |segments| - 1;
      assert seen[last] in seen;
      LastSplit(segments);
      FullListingsWantAll(root, segments[..last], seen[..last]);
    }
  }

  lemma {:induction false} TombstonesAreWanted(segments: seq<Segment>, seen: seq<Objects>)
    requires |seen| == |segments|
    ensures DeletesFiles(segments) <= Wanted(segments, seen)
    decreases |segments|
  {
    if segments != [] {
      LastSplit(segments);
      TombstonesAreWanted(segments[..|segments| - 1], seen[..|segments| - 1]);
    }
  }

  /** A listing that came too late is made good by a tombstone file that is missed afterwards. */
  lemma LateListingIsNoticed(root: Root, history: seq<Objects>, mid: nat, seen: seq<Objects>, got: map<string, Objects>,
                             i: nat)
    requires Ready(root) && history != [] && Dwindles(root, history) && IsReading(root, history, mid, seen, got)
    requires i <= mid && !(ManifestFiles(root) <= history[i].Keys) && !LosesSilently(root, history[i])
    ensures Download(root.manifest.value, seen, got).Refused?
  {
    var segments := root.manifest.value.segments;
    var t :| t in TombstonesOf(root) && t !in history[i];
    TombstonesAreWanted(segments, seen);
    assert t in got && Found(history, mid, |history| - 1, got[t]);
    assert t in ManifestFiles(root) && t !in got[t];
  }

  lemma ReaderIsServed(root: Root, history: seq<Objects>, mid: nat, seen: seq<Objects>, got: map<string, Objects>)
    requires Ready(root) && history != [] && Dwindles(root, history) && IsReading(root, history, mid, seen, got)
    requires forall o | o in history :: NothingForeign(root, o) && !LosesSilently(root, o)
    ensures CompleteOrError(root, seen, got)
  {
    var segments := root.manifest.value.segments;
    if o :| o in seen && !(ManifestFiles(root) <= o.Keys) {
      assert Found(history, 0, mid, o);
      var i: nat :| i <= mid && i < |history| && history[i] == o;
      LateListingIsNoticed(root, history, mid, seen, got, i);
    } else {
      FullListingsWantAll(root, segments, seen);
      StoresOfReaderAreOfHistory(root, history, mid, seen, got);
      CompleteOrErrorIff(root, seen, got);
    }
  }

  lemma StoresOfReaderAreOfHistory(root: Root, history: seq<Objects>, mid: nat, seen: seq<Objects>,
                                   got: map<string, Objects>)
    requires root.manifest.Some? && history != [] && IsReading(root, history, mid, seen, got)
    ensures forall o | o in seen || o in got.Values :: o in history
  {
    forall o | o in got.Values ensures o in history {
      var f :| f in got && got[f] == o;
      assert Found(history, mid, |history| - 1, got[f]);
    }
    forall o | o in seen ensures o in history { assert Found(history, 0, mid, o); }
  }

  /** All requests of this reader land at one moment. */
  lemma ReaderOfOneMoment(root: Root, history: seq<Objects>, i: nat)
      returns (seen: seq<Objects>, got: map<string, Objects>)
    requires root.manifest.Some? && i < |history|
    ensures IsReading(root, history, i, seen, got)
    ensures |seen| == |root.manifest.value.segments| && forall o | o in seen || o in got.Values :: o == history[i]
  {
    var segments := root.manifest.value.segments;
    seen := seq(|segments|, _ => history[i]);
    got := map f | f in Wanted(segments, seen) :: history[i];
    assert forall o | o in seen || o in got.Values :: o == history[i];
    assert Found(history, 0, i, history[i]) && Found(history, i, |history| - 1, history[i]);
  }

  lemma SilentLossIsPossible(root: Root, history: seq<Objects>, i: nat)
    requires Ready(root) && i < |history| && NothingForeign(root, history[i]) && LosesSilently(root, history[i])
    ensures !EveryReaderIsServed(root, history)
  {
    var seen, got := ReaderOfOneMoment(root, history, i);
    OneStoreIsEnoughIff(root, history[i], seen, got);
    assert !CompleteOrError(root, seen, got);
  }

  lemma WantedOfOneStore(root: Root, o: Objects, seen: seq<Objects>)
    requires root.manifest.Some? && |seen| == |root.manifest.value.segments| && forall x | x in seen :: x == o
    ensures Wanted(root.manifest.value.segments, seen) == FilesOf(o.Keys, root.manifest.value.segments)
  {
    forall i | 0 <= i < |seen| ensures seen[i] == o { assert seen[i] in seen; }
    WantedWhenListed(o.Keys, root.manifest.value.segments, seen);
  }

  /** Out of one store, the outcome is complete or an error unless the store loses files silently. */
  lemma OneStoreIsEnoughIff(root: Root, o: Objects, seen: seq<Objects>, got: map<string, Objects>)
    requires Ready(root) && Covers(root.manifest.value, seen, got) && NothingForeign(root, o)
    requires forall x | x in seen || x in got.Values :: x == o
    ensures CompleteOrError(root, seen, got) <==> !LosesSilently(root, o)
  {
    var segments := root.manifest.value.segments;
    WantedOfOneStore(root, o, seen);
    CompleteOrErrorIff(root, seen, got);
    var wanted := Wanted(segments, seen);
    forall f | f in wanted ensures got[f] == o { assert got[f] in got.Values; }
    WantedIsReferenced(root, segments, seen);
    assert forall f | f in DeletesFiles(segments) :: f in ManifestFiles(root) && f in wanted;
    assert forall f | f in wanted && f !in o :: f in DeletesFiles(segments);
    assert forall f | f in ManifestFiles(root) && f in o :: f in wanted;
  }

  /**
   Whatever the writer does, as long as files of `root` do not come back: every reader ends with the whole snapshot
   or an error exactly if no store of the history lacks some file of `root` but no tombstone file.
   */
  lemma EveryReaderIsServedIff(root: Root, history: seq<Objects>)
    requires Ready(root) && history != [] && Dwindles(root, history)
    requires forall o | o in history :: NothingForeign(root, o)
    ensures EveryReaderIsServed(root, history) <==> forall o | o in history :: !LosesSilently(root, o)
  {
    if o :| o in history && LosesSilently(root, o) {
      var i :| 0 <= i < |history| && history[i] == o;
      SilentLossIsPossible(root, history, i);
    } else {
      forall mid: nat, seen, got | IsReading(root, history, mid, seen, got) ensures CompleteOrError(root, seen, got) {
        ReaderIsServed(root, history, mid, seen, got);
      }
    }
  }

  // -------------------------------------------------------------- readers during and after one publication

  /** The store after each of the first requests of a publication. */
  ghost function StoresDuring(sha: string -> string, w: Writer, e: Event): (history: seq<Objects>)
    requires Possible(sha, w, e)
    ensures |history| == Steps(sha, w, e) + 1
  {
    seq(Steps(sha, w, e) + 1, n requires 0 <= n <= Steps(sha, w, e) => During(sha, w, e, n))
  }

  /** What the publication `e` leaves of the files that were there. */
  ghost function Kept(w: Writer, e: Event): set<string>
    requires Ready(e.root)
  {
    ManifestFiles(e.root) + w.previous
  }

  /** Names of files are not used again: not for other contents, and not for a file of `root` that is gone. */
  ghost predicate LeavesAlone(root: Root, w: Writer, e: Event)
    requires Ready(e.root)
  {
    && Ready(root) && NothingForeign(root, w.objects) && OwnsItsDirectories(root, ManifestFiles(e.root))
    && forall f | f in ManifestFiles(root) && f in ManifestFiles(e.root) :: f in w.objects
  }

  /** And `root` is in the store as it was published. */
  ghost predicate IsThere(root: Root, w: Writer, e: Event)
    requires Ready(e.root)
  {
    LeavesAlone(root, w, e) && ManifestFiles(root) <= w.objects.Keys
  }

  lemma FilesDuring(sha: string -> string, w: Writer, e: Event, n: nat, root: Root)
    requires Possible(sha, w, e) && n <= Steps(sha, w, e) && LeavesAlone(root, w, e)
    ensures var o, p := During(sha, w, e, n), PublicationIn(w, e);
            && NothingForeign(root, o)
            && forall f | f in ManifestFiles(root) :: f in o <==> f in w.objects && f !in Deleted(p, n)
  {
    var o, p := During(sha, w, e, n), PublicationIn(w, e);
    PublicationIsLegal(e.root, e.version, w.objects.Keys, w.previous);
    NamesOfPublication(p, w.objects.Keys, w.previous);
    StoreShape(sha, w.objects, p, w.previous, n);
    forall k | k in o && Referenced(root.manifest.value.segments, k) ensures k in ManifestFiles(root) {
      var s :| s in root.manifest.value.segments && Under(s.name, k);
      SpecialsLieInNoDirectory(s.name, k);
    }
  }

  /** The files of `root` that the publication deletes, in ascending order among all that it deletes. */
  lemma LostFiles(w: Writer, e: Event, root: Root)
    requires Ready(e.root) && IsThere(root, w, e)
    ensures var p := PublicationIn(w, e);
            && Lex.Ascending(p.deletes)
            && forall f | f in ManifestFiles(root) :: f in p.deletes <==> f !in Kept(w, e)
  {
    var keys := w.objects.Keys - SPECIAL - ManifestFiles(e.root) - w.previous;
    Lex.SortedIsSorted(keys);
  }

  lemma StoresDwindle(sha: string -> string, w: Writer, e: Event, root: Root)
    requires Possible(sha, w, e) && LeavesAlone(root, w, e)
    ensures var history := StoresDuring(sha, w, e);
            Dwindles(root, history) && forall o | o in history :: NothingForeign(root, o)
  {
    var history, p := StoresDuring(sha, w, e), PublicationIn(w, e);
    forall o | o in history ensures NothingForeign(root, o) {
      var n :| 0 <= n < |history| && history[n] == o;
      FilesDuring(sha, w, e, n, root);
    }
    forall f, i, k | f in ManifestFiles(root) && 0 <= i <= k < |history| && f in history[k] ensures f in history[i] {
      FilesDuring(sha, w, e, i, root);
      FilesDuring(sha, w, e, k, root);
      assert Deleted(p, i) <= Deleted(p, k);
    }
  }

  /** What of `root` the requests of `e` have deleted in the end. */
  ghost function Lost(sha: string -> string, w: Writer, e: Event, root: Root): set<string>
    requires Possible(sha, w, e) && root.manifest.Some?
  {
    ManifestFiles(root) - After(sha, w, e).objects.Keys
  }

  lemma LostAreDeleted(sha: string -> string, w: Writer, e: Event, root: Root)
    requires Possible(sha, w, e) && IsThere(root, w, e)
    ensures forall f :: f in Lost(sha, w, e, root)
                        <==> f in ManifestFiles(root) && f in Deleted(PublicationIn(w, e), Steps(sha, w, e))
    ensures e.Published? ==> Lost(sha, w, e, root) == ManifestFiles(root) - Kept(w, e)
  {
    FilesDuring(sha, w, e, Steps(sha, w, e), root);
    LostFiles(w, e, root);
    if e.Published? {
      PublicationIsLegal(e.root, e.version, w.objects.Keys, w.previous);
      OpsPrefix(sha, PublicationIn(w, e), 0);
    }
  }

  /** Deleting in ascending order reaches a file before all greater ones. */
  lemma LesserGoFirst(names: seq<string>, k: nat, f: string, i: nat)
    requires Lex.Ascending(names) && k < |names| && i < |names| && names[i] == f && Lex.Le(names[k], f)
    ensures k <= i && (i == k ==> f == names[k])
  {
    if i < k {
      assert Lex.Lt(f, names[k]);
      Lex.Antisymmetric(f, names[k]);
    }
  }

  lemma AmongTheFirst(names: seq<string>, m: nat, f: string) returns (i: nat)
    requires m <= |names| && f in names[..m]
    ensures i < m && names[i] == f
  {
    i :| 0 <= i < |names[..m]| && names[..m][i] == f;
  }

  ghost predicate IsFirstLost(sha: string -> string, w: Writer, e: Event, root: Root, first: string)
    requires Possible(sha, w, e) && root.manifest.Some?
  {
    first in Lost(sha, w, e, root) && forall f | f in Lost(sha, w, e, root) :: Lex.Le(first, f)
  }

  lemma NoneBeforeTheFirst(sha: string -> string, w: Writer, e: Event, root: Root, first: string, n: nat, f: string)
    requires Possible(sha, w, e) && IsThere(root, w, e) && IsFirstLost(sha, w, e, root, first) && n <= Steps(sha, w, e)
    requires f in ManifestFiles(root) && f in Deleted(PublicationIn(w, e), n)
    ensures first in Deleted(PublicationIn(w, e), n)
  {
    var p, all := PublicationIn(w, e), Steps(sha, w, e);
    LostAreDeleted(sha, w, e, root);
    LostFiles(w, e, root);
    assert Deleted(p, n) <= Deleted(p, all);
    var k := AmongTheFirst(p.deletes, |Deleted(p, all)|, first);
    var i := AmongTheFirst(p.deletes, |Deleted(p, n)|, f);
    LesserGoFirst(p.deletes, k, f, i);
    assert Deleted(p, n)[k] == first;
  }

  /** Right after its first file of `root`, the publication has deleted no other. */
  lemma FirstLoss(sha: string -> string, w: Writer, e: Event, root: Root, first: string) returns (n: nat)
    requires Possible(sha, w, e) && IsThere(root, w, e) && IsFirstLost(sha, w, e, root, first)
    ensures n <= Steps(sha, w, e) && first in Deleted(PublicationIn(w, e), n)
    ensures forall f | f in ManifestFiles(root) && f in Deleted(PublicationIn(w, e), n) :: f == first
  {
    var p, all := PublicationIn(w, e), Steps(sha, w, e);
    LostAreDeleted(sha, w, e, root);
    LostFiles(w, e, root);
    var k := AmongTheFirst(p.deletes, |Deleted(p, all)|, first);
    n := |p.uploads| + 3 + k + 1;
    assert Deleted(p, n) == p.deletes[..k + 1] && p.deletes[..k + 1][k] == first;
    forall f | f in ManifestFiles(root) && f in Deleted(p, n) ensures f == first {
      var i := AmongTheFirst(p.deletes, k + 1, f);
      assert Deleted(p, all)[i] == f;
      LesserGoFirst(p.deletes, k, f, i);
    }
  }

  lemma FirstLossIsNoticed(sha: string -> string, w: Writer, e: Event, root: Root, first: string, n: nat)
    requires Possible(sha, w, e) && IsThere(root, w, e) && IsFirstLost(sha, w, e, root, first) && n <= Steps(sha, w, e)
    requires first in TombstonesOf(root)
    ensures !LosesSilently(root, During(sha, w, e, n))
  {
    FilesDuring(sha, w, e, n, root);
    if f :| f in ManifestFiles(root) && f !in During(sha, w, e, n) {
      NoneBeforeTheFirst(sha, w, e, root, first, n, f);
      assert first in ManifestFiles(root);
    }
  }

  /**
   The snapshot `root` is still in the store when `e` begins, and readers of it may send each request at any moment of
   `e`. All of them end with the whole snapshot or an error exactly if `e` deletes none of its files, or the first
   that it deletes, which is the least by name, is a tombstone file.
   */
  lemma ReadersDuringEventAreServedIff(sha: string -> string, w: Writer, e: Event, root: Root)
    requires Possible(sha, w, e) && IsThere(root, w, e)
    ensures EveryReaderIsServed(root, StoresDuring(sha, w, e))
            <==> var lost := Lost(sha, w, e, root); lost == {} || Lex.Least(lost) in TombstonesOf(root)
  {
    var history, lost := StoresDuring(sha, w, e), Lost(sha, w, e, root);
    StoresDwindle(sha, w, e, root);
    EveryReaderIsServedIff(root, history);
    if lost == {} {
      forall o | o in history ensures !LosesSilently(root, o) {
        var n :| 0 <= n < |history| && history[n] == o;
        assert ManifestFiles(root) <= history[|history| - 1].Keys;
      }
    } else {
      var first, p := Lex.Least(lost), PublicationIn(w, e);
      var n := FirstLoss(sha, w, e, root, first);
      FilesDuring(sha, w, e, n, root);
      if first in TombstonesOf(root) {
        forall o | o in history ensures !LosesSilently(root, o) {
          var i :| 0 <= i < |history| && history[i] == o;
          FirstLossIsNoticed(sha, w, e, root, first, i);
        }
      } else {
        assert history[n] in history && LosesSilently(root, history[n]);
      }
    }
  }

  /** For a publication that returns: the files it keeps are those it refers to and those of the publication before. */
  lemma ReadersDuringPublicationAreServedIff(sha: string -> string, w: Writer, e: Event, root: Root)
    requires e.Published? && Possible(sha, w, e) && IsThere(root, w, e)
    ensures EveryReaderIsServed(root, StoresDuring(sha, w, e))
            <==> var lost := ManifestFiles(root) - Kept(w, e); lost == {} || Lex.Least(lost) in TombstonesOf(root)
  {
    LostAreDeleted(sha, w, e, root);
    ReadersDuringEventAreServedIff(sha, w, e, root);
  }

  // ------------------------------------------------------------------------- readers during a whole run

  ghost predicate AllLeaveAlone(sha: string -> string, root: Root, w: Writer, es: seq<Event>)
    requires PossibleRun(sha, w, es)
    decreases |es|
  {
    if es == [] then Ready(root) && NothingForeign(root, w.objects)
    else LeavesAlone(root, w, es[0]) && AllLeaveAlone(sha, root, After(sha, w, es[0]), es[1..])
  }

  ghost function StoresOfRun(sha: string -> string, w: Writer, es: seq<Event>): (history: seq<Objects>)
    requires PossibleRun(sha, w, es)
    ensures history != [] && history[0] == w.objects
    decreases |es|
  {
    if es == [] then [w.objects]
    else
      NothingRequested(sha, w, es[0]);
      StoresDuring(sha, w, es[0]) + StoresOfRun(sha, After(sha, w, es[0]), es[1..])
  }

  lemma NothingRequested(sha: string -> string, w: Writer, e: Event)
    requires Possible(sha, w, e)
    ensures StoresDuring(sha, w, e)[0] == w.objects
  {
    PublicationIsLegal(e.root, e.version, w.objects.Keys, w.previous);
    assert Ops(sha, PublicationIn(w, e))[..0] == [];
  }

  /** The first event that deletes files of `root` begins with a tombstone file. */
  ghost predicate FirstLossIsATombstone(sha: string -> string, root: Root, w: Writer, es: seq<Event>)
    requires PossibleRun(sha, w, es) && root.manifest.Some?
    decreases |es|
  {
    es == []
    || (var lost := Lost(sha, w, es[0], root);
        if lost == {} then FirstLossIsATombstone(sha, root, After(sha, w, es[0]), es[1..])
        else Lex.Least(lost) in TombstonesOf(root))
  }

  lemma DwindlesOn(root: Root, a: seq<Objects>, b: seq<Objects>)
    requires root.manifest.Some? && Dwindles(root, a) && Dwindles(root, b) && a != [] && b != [] && a[|a| - 1] == b[0]
    ensures Dwindles(root, a + b)
  {
    var ab := a + b;
    forall f, i, k | f in ManifestFiles(root) && 0 <= i <= k < |ab| && f in ab[k] ensures f in ab[i] {
      if i < |a| <= k {
        assert f in b[k - |a|] && f in b[0] && f in a[|a| - 1];
      }
    }
  }

  lemma {:induction false} RunDwindles(sha: string -> string, root: Root, w: Writer, es: seq<Event>)
    requires PossibleRun(sha, w, es) && AllLeaveAlone(sha, root, w, es)
    ensures var history := StoresOfRun(sha, w, es);
            Dwindles(root, history) && forall o | o in history :: NothingForeign(root, o)
    decreases |es|
  {
    if es != [] {
      var w' := After(sha, w, es[0]);
      RunDwindles(sha, root, w', es[1..]);
      StoresDwindle(sha, w, es[0], root);
      DwindlesOn(root, StoresDuring(sha, w, es[0]), StoresOfRun(sha, w', es[1..]));
    }
  }

  lemma GoneIsGone(root: Root, history: seq<Objects>, i: nat, t: string)
    requires root.manifest.Some? && Dwindles(root, history) && i < |history|
    requires t in TombstonesOf(root) && t !in history[i]
    ensures forall o | o in history[i..] :: !LosesSilently(root, o)
  {
    forall o | o in history[i..] ensures t !in o {
      var k :| 0 <= k < |history[i..]| && history[i..][k] == o;
      assert history[i + k] == o && t in ManifestFiles(root);
    }
  }

  ghost predicate NoneLosesSilently(root: Root, history: seq<Objects>)
    requires root.manifest.Some?
  {
    forall o | o in history :: !LosesSilently(root, o)
  }

  lemma EventLosesSilentlyIff(sha: string -> string, w: Writer, e: Event, root: Root)
    requires Possible(sha, w, e) && IsThere(root, w, e)
    ensures NoneLosesSilently(root, StoresDuring(sha, w, e))
            <==> var lost := Lost(sha, w, e, root); lost == {} || Lex.Least(lost) in TombstonesOf(root)
  {
    StoresDwindle(sha, w, e, root);
    EveryReaderIsServedIff(root, StoresDuring(sha, w, e));
    ReadersDuringEventAreServedIff(sha, w, e, root);
  }

  lemma {:induction false} RunLosesSilentlyIff(sha: string -> string, root: Root, w: Writer, es: seq<Event>)
    requires PossibleRun(sha, w, es) && AllLeaveAlone(sha, root, w, es) && ManifestFiles(root) <= w.objects.Keys
    ensures NoneLosesSilently(root, StoresOfRun(sha, w, es)) <==> FirstLossIsATombstone(sha, root, w, es)
    decreases |es|
  {
    if es != [] {
      var w', e := After(sha, w, es[0]), es[0];
      var now, later := StoresDuring(sha, w, e), StoresOfRun(sha, w', es[1..]);
      EventLosesSilentlyIff(sha, w, e, root);
      assert forall o :: o in now + later <==> o in now || o in later;
      if Lost(sha, w, e, root) == {} {
        RunLosesSilentlyIff(sha, root, w', es[1..]);
      } else if Lex.Least(Lost(sha, w, e, root)) in TombstonesOf(root) {
        RunDwindles(sha, root, w', es[1..]);
        GoneIsGone(root, later, 0, Lex.Least(Lost(sha, w, e, root)));
        assert later[0..] == later;
      }
    }
  }

  /**
   Over any run of publications, crashes and failures that begins with `root` in the store: readers of `root`, whose
   requests may land at any moments of the run, all end with the whole snapshot or an error exactly if the first
   deletion of a file of `root`, should there be one, is that of a tombstone file.
   */
  lemma ReadersDuringRunAreServedIff(sha: string -> string, root: Root, w: Writer, es: seq<Event>)
    requires PossibleRun(sha, w, es) && AllLeaveAlone(sha, root, w, es) && ManifestFiles(root) <= w.objects.Keys
    ensures Ready(root)
    ensures EveryReaderIsServed(root, StoresOfRun(sha, w, es)) <==> FirstLossIsATombstone(sha, root, w, es)
  {
    RunDwindles(sha, root, w, es);
    RunLosesSilentlyIff(sha, root, w, es);
    EveryReaderIsServedIff(root, StoresOfRun(sha, w, es));
  }

  // ---------------------------------------------------------------------------- readers that come afterwards

  /**
   Readers that come when the publication is over find one store, and for them any tombstone file among those that it
   dropped will do.
   */
  lemma CompleteAfterPublicationIff(sha: string -> string, w: Writer, e: Event, root: Root,
                                    seen: seq<Objects>, got: map<string, Objects>)
    requires e.Published? && Possible(sha, w, e) && IsThere(root, w, e) && Covers(root.manifest.value, seen, got)
    requires forall o | o in seen || o in got.Values :: o == After(sha, w, e).objects
    ensures CompleteOrError(root, seen, got)
            <==> ManifestFiles(root) <= Kept(w, e) || !(TombstonesOf(root) <= Kept(w, e))
  {
    FilesDuring(sha, w, e, Steps(sha, w, e), root);
    LostAreDeleted(sha, w, e, root);
    OneStoreIsEnoughIff(root, After(sha, w, e).objects, seen, got);
  }
}
