/**
 One batch of the incremental indexer: documents first, then the index, then the snapshot, then the
 documents that are gone, then the acknowledgements (src/beacon_scale_infra/incremental/indexer.py:150-198).
 Every write is an atomic moment, so that a crash may fall between any two.
 */
module Indexer {
  import opened Wrappers
  import opened Collections
  import opened ObjectStore
  import opened Snapshot
  import opened SnapshotPublisher
  import opened SnapshotRestore
  import SnapshotSafety
  import opened IndexUpdates

  /** What survives a crash: the document store by URL, the local index, the published one, the acks. */
  datatype Moment = Moment(documents: Live, local: Live, published: Live, acked: set<string>)

  datatype Message = Message(id: string, payload: Payload)

  function UpdatesOf(batch: seq<Message>): seq<Update>
    decreases |batch|
  {
    if batch == [] then [] else
      var u := FromPayload(batch[|batch| - 1].payload);
      UpdatesOf(batch[..|batch| - 1]) + (if u.Some? then [u.value] else [])
  }

  function Ids(batch: seq<Message>): seq<string> {
    seq(|batch|, i requires 0 <= i < |batch| => batch[i].id)
  }

  // ------------------------------------------------------------------------ what the messages of a batch say

  /** The message is a valid update of this URL. */
  predicate Says(m: Message, url: string) {
    var u := FromPayload(m.payload);
    u.Some? && u.value.url == url
  }

  /** Of the messages about this URL it is the last. */
  ghost predicate IsLastWord(batch: seq<Message>, i: int, url: string) {
    0 <= i < |batch| && Says(batch[i], url) && forall k | i < k < |batch| :: !Says(batch[k], url)
  }

  /** The index shows what this message asks for. */
  predicate IsFollowed(live: Live, m: Message)
    requires FromPayload(m.payload).Some?
  {
    match FromPayload(m.payload).value
    case Upsert(url, document) => url in live && live[url] == document
    case Delete(url) => url !in live
  }

  /** For every URL the last valid message decides; a URL that none is about is as it was. */
  ghost predicate LastWordsAreFollowed(before: Live, batch: seq<Message>, live: Live) {
    && (forall url, i | IsLastWord(batch, i, url) :: IsFollowed(live, batch[i]))
    && (forall url | (forall m | m in batch :: !Says(m, url)) ::
          (url in live <==> url in before) && (url in live ==> live[url] == before[url]))
  }

  lemma OneMoreWord(batch: seq<Message>, m: Message, url: string)
    ensures LastOf(UpdatesOf(batch + [m]), url)
            == if Says(m, url) then FromPayload(m.payload) else LastOf(UpdatesOf(batch), url)
  {
    var u, before := FromPayload(m.payload), UpdatesOf(batch);
    assert (batch + [m])[..|batch|] == batch;
    if u.Some? { assert (before + [u.value])[..|before|] == before; } else { assert before + [] == before; }
  }

  lemma {:induction false} LastWordIsLast(batch: seq<Message>, i: int, url: string)
    requires IsLastWord(batch, i, url)
    ensures LastOf(UpdatesOf(batch), url) == FromPayload(batch[i].payload)
  {
    var n := |batch| - 1;
    LastSplit(batch);
    OneMoreWord(batch[..n], batch[n], url);
    if i < n { LastWordIsLast(batch[..n], i, url); }
  }

  lemma {:induction false} NoWordNoUpdate(batch: seq<Message>, url: string)
    requires forall m | m in batch :: !Says(m, url)
    ensures LastOf(UpdatesOf(batch), url) == None
  {
    if batch != [] {
      var n := |batch| - 1;
      LastSplit(batch);
      OneMoreWord(batch[..n], batch[n], url);
      assert batch[n] in batch;
      NoWordNoUpdate(batch[..n], url);
    }
  }

  lemma UpdatesFollowLastWords(before: Live, batch: seq<Message>)
    ensures LastWordsAreFollowed(before, batch, ApplyAll(before, UpdatesOf(batch)))
  {
    var live := ApplyAll(before, UpdatesOf(batch));
    forall url, i | IsLastWord(batch, i, url) ensures IsFollowed(live, batch[i]) {
      LastWordIsLast(batch, i, url);
      ApplyAllPerUrl(before, UpdatesOf(batch), url);
    }
    forall url | (forall m | m in batch :: !Says(m, url))
      ensures (url in live <==> url in before) && (url in live ==> live[url] == before[url])
    {
      NoWordNoUpdate(batch, url);
      ApplyAllPerUrl(before, UpdatesOf(batch), url);
    }
  }

  // ----------------------------------------------------------------------------------- what readers find

  /** `SegmentedIndex`: the live documents of a manifest and the files it refers to. */
  type LiveOf = (Manifest, map<string, Blob>) -> Live

  /** The live documents of a local copy. */
  ghost function LocalLive(liveOf: LiveOf, root: Root): Live
    requires Ready(root)
  {
    liveOf(root.manifest.value, LocalFiles(root))
  }

  /** The live documents a reader of the store finds. */
  function FoundLive(liveOf: LiveOf, objects: Objects): Live {
    var found := ManifestIn(objects);
    if found.Some? then liveOf(found.value, FilesFound(objects, found.value)) else map[]
  }

  function LivesFound(liveOf: LiveOf, seen: seq<Objects>): seq<Live> {
    seq(|seen|, i requires 0 <= i < |seen| => FoundLive(liveOf, seen[i]))
  }

  /** No name of a file is used again for other bytes, as far as this publication is concerned. */
  ghost predicate NamesAreFresh(objects: Objects, root: Root)
    requires Ready(root)
  {
    NothingForeign(root, objects) && AddsNothingTo(objects, ManifestFiles(root), ManifestIn(objects))
  }

  lemma LiveAfter(liveOf: LiveOf, sha: string -> string, objects: Objects, p: Publication, previous: set<string>,
                  n: nat)
    requires Legal(p, objects.Keys, previous) && NamesAreFresh(objects, p.root) && n <= |p.uploads| + 3 + |p.deletes|
    ensures |Ops(sha, p)| == |p.uploads| + 3 + |p.deletes|
    ensures FoundLive(liveOf, StoreAt(sha, objects, p, n))
            == if n > |p.uploads| then LocalLive(liveOf, p.root) else FoundLive(liveOf, objects)
  {
    SeenAfter(sha, objects, p, previous, n);
    if n > |p.uploads| {
      FoundAfterCommit(sha, objects, p, previous, n);
    } else if ManifestIn(objects).Some? {
      FoundBeforeCommit(sha, objects, p, previous, n);
    }
  }

  lemma LiveIn(liveOf: LiveOf, sha: string -> string, objects: Objects, p: Publication, previous: set<string>, n: nat,
               o: Objects)
    requires Legal(p, objects.Keys, previous) && NamesAreFresh(objects, p.root)
    requires n <= |Ops(sha, p)| && o == StoreAt(sha, objects, p, n)
    ensures FoundLive(liveOf, o) == if n > |p.uploads| then LocalLive(liveOf, p.root) else FoundLive(liveOf, objects)
  {
    OpsPrefix(sha, p, 0);
    LiveAfter(liveOf, sha, objects, p, previous, n);
  }

  lemma LiveSeen(liveOf: LiveOf, sha: string -> string, objects: Objects, p: Publication, previous: set<string>, i: nat)
    requires Legal(p, objects.Keys, previous) && NamesAreFresh(objects, p.root) && i < |StoresSeen(sha, objects, p)|
    ensures FoundLive(liveOf, StoresSeen(sha, objects, p)[i])
            == if i >= |p.uploads| then LocalLive(liveOf, p.root) else FoundLive(liveOf, objects)
  {
    SeenIs(sha, objects, p, i);
    LiveIn(liveOf, sha, objects, p, previous, i + 1, StoresSeen(sha, objects, p)[i]);
  }

  /** Then readers find the documents of the old snapshot until the commit, and from then on the new ones. */
  lemma ReadersFindOldOrNewDocuments(liveOf: LiveOf, sha: string -> string, objects: Objects, p: Publication,
                                     previous: set<string>)
    requires Legal(p, objects.Keys, previous) && NamesAreFresh(objects, p.root)
    ensures |StoresSeen(sha, objects, p)| > |p.uploads|
    ensures forall i | 0 <= i < |StoresSeen(sha, objects, p)| ::
              FoundLive(liveOf, StoresSeen(sha, objects, p)[i])
              == if i >= |p.uploads| then LocalLive(liveOf, p.root) else FoundLive(liveOf, objects)
  {
    forall i | 0 <= i < |StoresSeen(sha, objects, p)|
      ensures FoundLive(liveOf, StoresSeen(sha, objects, p)[i])
              == if i >= |p.uploads| then LocalLive(liveOf, p.root) else FoundLive(liveOf, objects)
    {
      LiveSeen(liveOf, sha, objects, p, previous, i);
    }
  }

  /** When the publication is over they find the new ones. */
  lemma LastLiveIsNew(liveOf: LiveOf, sha: string -> string, objects: Objects, p: Publication, previous: set<string>,
                      last: Objects)
    requires Legal(p, objects.Keys, previous) && NamesAreFresh(objects, p.root)
    requires var seen := StoresSeen(sha, objects, p); seen != [] && last == seen[|seen| - 1]
    ensures FoundLive(liveOf, last) == LocalLive(liveOf, p.root)
  {
    LastSeen(sha, objects, p);
    LiveIn(liveOf, sha, objects, p, previous, |Ops(sha, p)|, last);
  }

  lemma LivesAreOldOrNew(liveOf: LiveOf, sha: string -> string, objects: Objects, p: Publication, previous: set<string>)
    requires Legal(p, objects.Keys, previous) && NamesAreFresh(objects, p.root)
    ensures forall l | l in LivesFound(liveOf, StoresSeen(sha, objects, p)) ::
              l == FoundLive(liveOf, objects) || l == LocalLive(liveOf, p.root)
    ensures FoundLive(liveOf, StoreAt(sha, objects, p, |Ops(sha, p)|)) == LocalLive(liveOf, p.root)
  {
    ReadersFindOldOrNewDocuments(liveOf, sha, objects, p, previous);
    OpsPrefix(sha, p, 0);
    LiveAfter(liveOf, sha, objects, p, previous, |Ops(sha, p)|);
  }

  lemma FindsOldAndThenNew(liveOf: LiveOf, sha: string -> string, objects: Objects, p: Publication,
                           previous: set<string>, seen: seq<Objects>)
    requires Legal(p, objects.Keys, previous) && NamesAreFresh(objects, p.root)
    requires seen == StoresSeen(sha, objects, p)
    ensures forall l | l in LivesFound(liveOf, seen) ::
              l == FoundLive(liveOf, objects) || l == LocalLive(liveOf, p.root)
    ensures seen != [] && FoundLive(liveOf, seen[|seen| - 1]) == LocalLive(liveOf, p.root)
  {
    LivesAreOldOrNew(liveOf, sha, objects, p, previous);
    LastLiveIsNew(liveOf, sha, objects, p, previous, seen[|seen| - 1]);
  }

  /** One batch: its coalesced updates and its messages. */
  datatype Batch = Batch(keepsDocuments: bool, upserts: seq<Update>, deletes: seq<string>, ids: seq<string>)

  ghost predicate WellFormedBatch(b: Batch) {
    && (forall u | u in b.upserts :: u.Upsert?)
    && (forall u | u in b.upserts :: u.url !in b.deletes)
  }

  /** The document of the URL stays as long as the index still shows it. */
  function Dropped(local: Live, deletes: seq<string>): set<string> {
    set url | url in deletes && url !in local
  }

  function WithDocuments(t: Moment, upserts: seq<Update>): Moment
    requires forall u | u in upserts :: u.Upsert?
  {
    t.(documents := t.documents + DocumentsOf(upserts))
  }

  function Stored(t: Moment, b: Batch): Moment
    requires forall u | u in b.upserts :: u.Upsert?
  {
    if b.keepsDocuments then WithDocuments(t, b.upserts) else t
  }

  function Indexed(t: Moment, b: Batch): Moment
    requires forall u | u in b.upserts :: u.Upsert?
  {
    Stored(t, b).(local := ApplyBatch(t.local, b.upserts, b.deletes))
  }

  /** What readers find in the end. */
  function FoundLast(t: Moment, lives: seq<Live>): Live {
    if lives == [] then t.published else lives[|lives| - 1]
  }

  /** Readers find the old documents or those of the local index, and the latter in the end. */
  ghost predicate OldThenNew(t: Moment, lives: seq<Live>) {
    lives != [] && FoundLast(t, lives) == t.local && forall l | l in lives :: l == t.published || l == t.local
  }

  lemma LastFound(liveOf: LiveOf, t: Moment, seen: seq<Objects>)
    requires seen != []
    ensures FoundLast(t, LivesFound(liveOf, seen)) == FoundLive(liveOf, seen[|seen| - 1])
  {
  }

  lemma FindsOldThenNew(liveOf: LiveOf, sha: string -> string, objects: Objects, p: Publication, previous: set<string>,
                        seen: seq<Objects>, t: Moment)
    requires Legal(p, objects.Keys, previous) && NamesAreFresh(objects, p.root) && seen == StoresSeen(sha, objects, p)
    requires t.published == FoundLive(liveOf, objects) && t.local == LocalLive(liveOf, p.root)
    ensures OldThenNew(t, LivesFound(liveOf, seen))
  {
    FindsOldAndThenNew(liveOf, sha, objects, p, previous, seen);
    LastFound(liveOf, t, seen);
  }

  function Published(t: Moment, b: Batch, found: Live): Moment
    requires forall u | u in b.upserts :: u.Upsert?
  {
    Indexed(t, b).(published := found)
  }

  function CleanedUp(t: Moment, b: Batch, found: Live): Moment
    requires forall u | u in b.upserts :: u.Upsert?
  {
    var t' := Published(t, b, found);
    if b.keepsDocuments then t'.(documents := t'.documents - Dropped(t'.local, b.deletes)) else t'
  }

  function Done(t: Moment, b: Batch, found: Live): Moment
    requires forall u | u in b.upserts :: u.Upsert?
  {
    CleanedUp(t, b, found).(acked := t.acked + Elems(b.ids))
  }

  function DocumentMoments(t: Moment, upserts: seq<Update>): seq<Moment>
    requires forall u | u in upserts :: u.Upsert?
  {
    seq(|upserts|, i requires 0 <= i < |upserts| => WithDocuments(t, upserts[..i + 1]))
  }

  function IndexMoments(t: Moment, b: Batch): seq<Moment>
    requires forall u | u in b.upserts :: u.Upsert?
  {
    (if b.upserts != [] then [Stored(t, b).(local := t.local + DocumentsOf(b.upserts))] else [])
    + (if b.deletes != [] then [Indexed(t, b)] else [])
  }

  function PublishMoments(t: Moment, lives: seq<Live>): seq<Moment> {
    seq(|lives|, i requires 0 <= i < |lives| => t.(published := lives[i]))
  }

  function DropMoments(t: Moment, deletes: seq<string>): seq<Moment> {
    seq(|deletes|, i requires 0 <= i < |deletes| => t.(documents := t.documents - Dropped(t.local, deletes[..i + 1])))
  }

  function AckMoments(t: Moment, ids: seq<string>): seq<Moment> {
    seq(|ids|, i requires 0 <= i < |ids| => t.(acked := t.acked + Elems(ids[..i + 1])))
  }

  /** Every durable state the batch passes through, in order; `lives` is what readers find after each
      request of its publication. */
  function Moments(t: Moment, b: Batch, lives: seq<Live>): seq<Moment>
    requires forall u | u in b.upserts :: u.Upsert?
  {
    FirstMoments(t, b) + LaterMoments(t, b, lives)
  }

  /** Until both indexes are ready. */
  function FirstMoments(t: Moment, b: Batch): seq<Moment>
    requires forall u | u in b.upserts :: u.Upsert?
  {
    (if b.keepsDocuments then DocumentMoments(t, b.upserts) else []) + IndexMoments(t, b)
  }

  function LaterMoments(t: Moment, b: Batch, lives: seq<Live>): seq<Moment>
    requires forall u | u in b.upserts :: u.Upsert?
  {
    PublishMoments(Indexed(t, b), lives)
    + (if b.keepsDocuments then DropMoments(Published(t, b, FoundLast(t, lives)), b.deletes) else [])
    + AckMoments(CleanedUp(t, b, FoundLast(t, lives)), b.ids)
  }

  lemma DocumentMomentsSnoc(t: Moment, upserts: seq<Update>, i: nat)
    requires i < |upserts| && forall u | u in upserts :: u.Upsert?
    ensures var m := t.(documents := (t.documents + DocumentsOf(upserts[..i]))[upserts[i].url := upserts[i].document]);
            && m == WithDocuments(t, upserts[..i + 1])
            && DocumentMoments(t, upserts)[..i + 1] == DocumentMoments(t, upserts)[..i] + [m]
  {
    assert upserts[..i + 1][..i] == upserts[..i];
  }

  // ------------------------------------------------------------------------------- the indexer itself

  lemma EveryIdIsThere(batch: seq<Message>)
    ensures Elems(Ids(batch)) == set m | m in batch :: m.id
  {
    forall m | m in batch ensures m.id in Ids(batch) {
      var i :| 0 <= i < |batch| && batch[i] == m;
      assert Ids(batch)[i] == m.id;
    }
  }

  class IncrementalIndexer {
    const publisher: SnapshotPublisher
    const liveOf: LiveOf
    const keepsDocuments: bool
    var live: Live
    var documents: Live
    var acked: set<string>
    ghost var trace: seq<Moment>

    ghost predicate Valid()
      reads this, publisher, publisher.storage
    {
      publisher.Valid()
    }

    ghost function Now(): Moment
      reads this, publisher.storage
    {
      Moment(documents, live, FoundLive(liveOf, publisher.storage.objects), acked)
    }

    constructor (publisher: SnapshotPublisher, liveOf: LiveOf, keepsDocuments: bool, live: Live, documents: Live)
      requires publisher.Valid()
      ensures Valid() && this.publisher == publisher && this.liveOf == liveOf && this.keepsDocuments == keepsDocuments
      ensures this.live == live && this.documents == documents && acked == {} && trace == []
    {
      this.publisher, this.liveOf, this.keepsDocuments := publisher, liveOf, keepsDocuments;
      this.live, this.documents, this.acked, this.trace := live, documents, {}, [];
    }

    method StoreDocumentsIfKept(b: Batch)
      requires Valid() && b.keepsDocuments == keepsDocuments && forall u | u in b.upserts :: u.Upsert?
      modifies this`documents, this`trace
      ensures Now() == Stored(old(Now()), b)
      ensures trace == old(trace) + (if b.keepsDocuments then DocumentMoments(old(Now()), b.upserts) else [])
    {
      if keepsDocuments { StoreDocuments(b.upserts); }
    }

    method DropDocumentsIfKept(ghost t: Moment, b: Batch, ghost found: Live)
      requires Valid() && b.keepsDocuments == keepsDocuments
      requires (forall u | u in b.upserts :: u.Upsert?) && Now() == Published(t, b, found)
      modifies this`documents, this`trace
      ensures Now() == CleanedUp(t, b, found)
      ensures trace == old(trace) + (if b.keepsDocuments then DropMoments(Published(t, b, found), b.deletes) else [])
    {
      if keepsDocuments { DropDocuments(b.deletes); }
    }

    method StoreDocuments(upserts: seq<Update>)
      requires Valid() && forall u | u in upserts :: u.Upsert?
      modifies this`documents, this`trace
      ensures Now() == WithDocuments(old(Now()), upserts)
      ensures trace == old(trace) + DocumentMoments(old(Now()), upserts)
    {
      ghost var t := Now();
      for i := 0 to |upserts|
        invariant documents == t.documents + DocumentsOf(upserts[..i])
        invariant trace == old(trace) + DocumentMoments(t, upserts)[..i]
      {
        documents := documents[upserts[i].url := upserts[i].document];
        DocumentMomentsSnoc(t, upserts, i);
        trace := trace + [Now()];
      }
      assert upserts[..|upserts|] == upserts;
      assert DocumentMoments(t, upserts)[..|upserts|] == DocumentMoments(t, upserts);
    }

    method UpdateIndex(ghost t: Moment, b: Batch)
      requires Valid() && forall u | u in b.upserts :: u.Upsert?
      requires Now() == Stored(t, b)
      modifies this`live, this`trace
      ensures Now() == Indexed(t, b)
      ensures trace == old(trace) + IndexMoments(t, b)
    {
      assert live == t.local;
      ghost var added := if b.upserts != [] then [Stored(t, b).(local := t.local + DocumentsOf(b.upserts))] else [];
      if b.upserts != [] {
        live := live + DocumentsOf(b.upserts);
        trace := trace + [Now()];
      }
      assert trace == old(trace) + added && live == t.local + DocumentsOf(b.upserts);
      if b.deletes != [] {
        live := live - set url | url in b.deletes;
        trace := trace + [Now()];
      }
      Associative(old(trace), added, if b.deletes != [] then [Indexed(t, b)] else []);
    }

    /** The stores that readers find while `written` is being published. */
    ghost function Seen(written: Root, version: string): seq<Objects>
      requires Valid() && Ready(written)
      reads this, publisher, publisher.storage
    {
      var keys, previous := publisher.storage.objects.Keys, publisher.previousFiles;
      PublicationIsLegal(written, version, keys, previous);
      StoresSeen(publisher.sha, publisher.storage.objects, PublicationOf(written, version, keys, previous))
    }

    /** The local copy shows these documents, and uses no file name of the store again for other bytes. */
    ghost predicate ShowsWithFreshNames(written: Root, documents: Live)
      requires Ready(written)
      reads this, publisher, publisher.storage
    {
      LocalLive(liveOf, written) == documents && NamesAreFresh(publisher.storage.objects, written)
    }

    method PublishIndex(ghost t: Moment, written: Root) returns (version: string, ghost lives: seq<Live>)
      requires Valid() && Ready(written) && Now() == t
      modifies publisher, publisher.storage, this`trace
      ensures Valid() && lives == LivesFound(liveOf, old(Seen(written, version)))
      ensures Now() == t.(published := FoundLast(t, lives))
      ensures trace == old(trace) + PublishMoments(t, lives)
      ensures old(ShowsWithFreshNames(written, live)) ==> OldThenNew(t, lives)
    {
      ghost var objects, previous := publisher.storage.objects, publisher.previousFiles;
      ghost var seen;
      version, seen := publisher.PublishBefore(written);
      lives := LivesFound(liveOf, seen);
      trace := trace + PublishMoments(t, lives);
      LastFound(liveOf, t, seen);
      if t.local == LocalLive(liveOf, written) && NamesAreFresh(objects, written) {
        FindsOldThenNew(liveOf, publisher.sha, objects, PublicationOf(written, version, objects.Keys, previous),
                        previous, seen, t);
      }
    }

    method DropDocuments(deletes: seq<string>)
      requires Valid()
      modifies this`documents, this`trace
      ensures Now() == old(Now()).(documents := old(documents) - Dropped(live, deletes))
      ensures trace == old(trace) + DropMoments(old(Now()), deletes)
    {
      ghost var t := Now();
      for i := 0 to |deletes|
        invariant documents == t.documents - Dropped(live, deletes[..i])
        invariant trace == old(trace) + DropMoments(t, deletes)[..i]
      {
        assert deletes[..i + 1] == deletes[..i] + [deletes[i]];
        if deletes[i] !in live {
          documents := documents - {deletes[i]};
        }
        assert documents == t.documents - Dropped(live, deletes[..i + 1]);
        trace := trace + [Now()];
      }
      assert deletes[..|deletes|] == deletes;
    }

    method Acknowledge(ids: seq<string>)
      requires Valid()
      modifies this`acked, this`trace
      ensures Now() == old(Now()).(acked := old(acked) + Elems(ids))
      ensures trace == old(trace) + AckMoments(old(Now()), ids)
    {
      ghost var t := Now();
      for i := 0 to |ids|
        invariant acked == t.acked + Elems(ids[..i])
        invariant trace == old(trace) + AckMoments(t, ids)[..i]
      {
        assert ids[..i + 1] == ids[..i] + [ids[i]];
        acked := acked + {ids[i]};
        assert acked == t.acked + Elems(ids[..i + 1]);
        trace := trace + [Now()];
      }
      assert ids[..|ids|] == ids;
    }

    /** `_apply_batch`; `written` is what the segmented index leaves on disk after its own updates and merges. */
    method ApplyMessages(batch: seq<Message>, written: Root)
        returns (version: string, ghost b: Batch, ghost lives: seq<Live>)
      requires Valid() && Ready(written)
      modifies this, publisher, publisher.storage
      ensures Valid()
      ensures b == Batch(keepsDocuments, Upserts(Latest(UpdatesOf(batch))), Deletes(Latest(UpdatesOf(batch))),
                         Ids(batch))
      ensures WellFormedBatch(b) && trace == old(trace) + Moments(old(Now()), b, lives)
      ensures Now() == Done(old(Now()), b, FoundLast(old(Now()), lives))
      ensures old(ShowsWithFreshNames(written, ApplyCoalesced(live, UpdatesOf(batch)))) ==>
                Readers(old(Now()), b, lives)
      ensures live == ApplyAll(old(live), UpdatesOf(batch))
      ensures LastWordsAreFollowed(old(live), batch, live)
      ensures acked == old(acked) + set m | m in batch :: m.id
    {
      var updates := ReadUpdates(batch);
      var upserts, deletes := CoalesceUpdates(updates);
      CoalescedAreUpserts(updates);
      BatchIsOneByOne(live, updates);
      b := Batch(keepsDocuments, upserts, deletes, Ids(batch));
      UpdatesFollowLastWords(live, batch);
      EveryIdIsThere(batch);
      version, lives := ApplyCoalescedBatch(Batch(keepsDocuments, upserts, deletes, Ids(batch)), written);
    }

    method ReadUpdates(batch: seq<Message>) returns (updates: seq<Update>)
      ensures updates == UpdatesOf(batch)
    {
      updates := [];
      for i := 0 to |batch|
        invariant updates == UpdatesOf(batch[..i])
      {
        assert batch[..i + 1][..i] == batch[..i];
        var u := FromPayload(batch[i].payload);
        if u.Some? { updates := updates + [u.value]; }
      }
      assert batch[..|batch|] == batch;
    }

    method ApplyCoalescedBatch(b: Batch, written: Root) returns (version: string, ghost lives: seq<Live>)
      requires Valid() && Ready(written) && WellFormedBatch(b) && b.keepsDocuments == keepsDocuments
      modifies this, publisher, publisher.storage
      ensures Valid() && trace == old(trace) + Moments(old(Now()), b, lives)
      ensures Now() == Done(old(Now()), b, FoundLast(old(Now()), lives))
      ensures old(ShowsWithFreshNames(written, ApplyBatch(live, b.upserts, b.deletes))) ==>
                Readers(old(Now()), b, lives)
    {
      ghost var t := Now();
      StoreAndIndex(b);
      version, lives := PublishAndAcknowledge(t, b, written);
      Associative(old(trace), FirstMoments(t, b), LaterMoments(t, b, lives));
    }

    method StoreAndIndex(b: Batch)
      requires Valid() && b.keepsDocuments == keepsDocuments && forall u | u in b.upserts :: u.Upsert?
      modifies this`documents, this`live, this`trace
      ensures Now() == Indexed(old(Now()), b)
      ensures trace == old(trace) + FirstMoments(old(Now()), b)
    {
      ghost var t := Now();
      StoreDocumentsIfKept(b);
      UpdateIndex(t, b);
      Associative(old(trace), if b.keepsDocuments then DocumentMoments(t, b.upserts) else [], IndexMoments(t, b));
    }

    method PublishAndAcknowledge(ghost t: Moment, b: Batch, written: Root)
        returns (version: string, ghost lives: seq<Live>)
      requires Valid() && Ready(written) && WellFormedBatch(b) && b.keepsDocuments == keepsDocuments
      requires Now() == Indexed(t, b)
      modifies this, publisher, publisher.storage
      ensures Valid() && trace == old(trace) + LaterMoments(t, b, lives)
      ensures Now() == Done(t, b, FoundLast(t, lives))
      ensures old(ShowsWithFreshNames(written, live)) ==> Readers(t, b, lives)
    {
      version, lives := PublishIndex(Indexed(t, b), written);
      ghost var found := FoundLast(t, lives);
      DropDocumentsIfKept(t, b, found);
      Acknowledge(b.ids);
      ghost var seen, dropped := PublishMoments(Indexed(t, b), lives), DropMoments(Published(t, b, found), b.deletes);
      Associative(old(trace), seen, if b.keepsDocuments then dropped else []);
      Associative(old(trace), seen + if b.keepsDocuments then dropped else [],
                  AckMoments(CleanedUp(t, b, found), b.ids));
    }
  }

  // ------------------------------------------------------- no live document is ever without its text

  /** Every URL that the local or the published index shows has its document in the store. */
  ghost predicate Covered(t: Moment) {
    t.local.Keys <= t.documents.Keys && t.published.Keys <= t.documents.Keys
  }

  /** What a publication shows readers if names are fresh, as `PublishIndex` establishes. */
  ghost predicate Readers(t: Moment, b: Batch, lives: seq<Live>)
    requires forall u | u in b.upserts :: u.Upsert?
  {
    OldThenNew(Indexed(t, b), lives)
  }

  lemma {:induction false} DocumentsOfPrefix(upserts: seq<Update>, i: nat)
    requires i <= |upserts| && forall u | u in upserts :: u.Upsert?
    ensures DocumentsOf(upserts[..i]).Keys <= DocumentsOf(upserts).Keys
    decreases |upserts|
  {
    if i == |upserts| {
      assert upserts[..i] == upserts;
    } else {
      var init := upserts[..|upserts| - 1];
      DocumentsOfPrefix(init, i);
      assert init[..i] == upserts[..i];
    }
  }

  lemma DeletedAreNotDocuments(b: Batch)
    requires WellFormedBatch(b)
    ensures forall url | url in b.deletes :: url !in DocumentsOf(b.upserts)
  {
    DocumentsOfMembers(b.upserts);
  }

  /** With the document store configured, no moment of a batch shows a URL without its document. */
  lemma EveryMomentIsCovered(t: Moment, b: Batch, lives: seq<Live>)
    requires Covered(t) && b.keepsDocuments && WellFormedBatch(b) && Readers(t, b, lives)
    ensures forall m | m in Moments(t, b, lives) :: Covered(m)
    ensures Covered(Done(t, b, FoundLast(t, lives)))
  {
    DeletedAreNotDocuments(b);
    forall m | m in DocumentMoments(t, b.upserts) ensures Covered(m) {}
    forall m | m in IndexMoments(t, b) ensures Covered(m) {}
    forall i | 0 <= i < |lives| ensures Covered(PublishMoments(Indexed(t, b), lives)[i]) {
      assert lives[i] in lives;
    }
    forall m | m in DropMoments(Published(t, b, FoundLast(t, lives)), b.deletes) ensures Covered(m) {}
    forall m | m in AckMoments(CleanedUp(t, b, FoundLast(t, lives)), b.ids) ensures Covered(m) {}
  }

  /** A message is acknowledged only when readers already find the whole batch, and deleted documents are gone. */
  lemma AckedIsPublished(t: Moment, b: Batch, lives: seq<Live>)
    requires WellFormedBatch(b)
    ensures forall m | m in Moments(t, b, lives) && m.acked != t.acked ::
              && m.published == FoundLast(t, lives) && m.local == ApplyBatch(t.local, b.upserts, b.deletes)
              && (b.keepsDocuments ==> forall url | url in b.deletes :: url !in m.documents)
    ensures Readers(t, b, lives) ==> FoundLast(t, lives) == ApplyBatch(t.local, b.upserts, b.deletes)
  {
    forall m | m in DocumentMoments(t, b.upserts) ensures m.acked == t.acked {}
    forall m | m in IndexMoments(t, b) ensures m.acked == t.acked {}
    forall m | m in PublishMoments(Indexed(t, b), lives) ensures m.acked == t.acked {}
    forall m | m in DropMoments(Published(t, b, FoundLast(t, lives)), b.deletes) ensures m.acked == t.acked {}
    forall m | m in AckMoments(CleanedUp(t, b, FoundLast(t, lives)), b.ids)
      ensures m.published == FoundLast(t, lives) && m.local == ApplyBatch(t.local, b.upserts, b.deletes)
      ensures b.keepsDocuments ==> forall url | url in b.deletes :: url !in m.documents
    {
    }
  }

  /** Once a batch is done, the store holds for every live URL exactly the document that is indexed. */
  lemma DoneIsFaithful(t: Moment, b: Batch, lives: seq<Live>)
    requires b.keepsDocuments && WellFormedBatch(b)
    requires forall url | url in t.local :: url in t.documents && t.documents[url] == t.local[url]
    ensures var d := Done(t, b, FoundLast(t, lives));
            && (Readers(t, b, lives) ==> d.published == d.local)
            && (forall url | url in d.local :: url in d.documents && d.documents[url] == d.local[url])
            && (forall url | url in b.deletes :: url !in d.documents && url !in d.local)
            && (forall url | url !in b.deletes && url !in DocumentsOf(b.upserts) ::
                  (url in d.documents <==> url in t.documents)
                  && (url in t.documents ==> d.documents[url] == t.documents[url]))
  {
    DeletedAreNotDocuments(b);
  }

  /** Without a document store no moment has other documents. */
  lemma WithoutStoreDocumentsStand(t: Moment, b: Batch, lives: seq<Live>)
    requires WellFormedBatch(b) && !b.keepsDocuments
    ensures forall m | m in Moments(t, b, lives) :: m.documents == t.documents
  {
    forall m | m in IndexMoments(t, b) ensures m.documents == t.documents {}
    forall m | m in PublishMoments(Indexed(t, b), lives) ensures m.documents == t.documents {}
    forall m | m in AckMoments(CleanedUp(t, b, FoundLast(t, lives)), b.ids) ensures m.documents == t.documents {}
  }

  // ------------------------------------------------------------------ a world in which names are not reused

  /** Every file that an index ever has, and its bytes: no name is used again for other bytes. */
  datatype World = World(names: iset<string>, bytes: string -> string)

  /** The files of `root` are the world's, and its segments have all files that the world has in their directories. */
  ghost predicate Agrees(world: World, root: Root)
    requires root.manifest.Some?
  {
    && (forall f | f in ManifestFiles(root) :: f in world.names && f in root.files && root.files[f] == world.bytes(f))
    && (forall k | k in world.names && Referenced(root.manifest.value.segments, k) :: k in ManifestFiles(root))
  }

  ghost predicate StoreAgrees(world: World, objects: Objects) {
    forall k | k in objects && k !in SPECIAL :: k in world.names && objects[k] == Raw(world.bytes(k))
  }

  /** What is durable, and the writer with the store it works on. */
  datatype Situation = Situation(t: Moment, w: SnapshotSafety.Writer)

  ghost predicate Consistent(liveOf: LiveOf, world: World, s: Situation) {
    && SnapshotSafety.Complete(s.w.objects, s.w.published) && StoreAgrees(world, s.w.objects)
    && (s.w.published.Some? ==> Agrees(world, s.w.published.value))
    && s.t.published == FoundLive(liveOf, s.w.objects)
  }

  /** In such a world whatever is published next keeps the names that are in use. */
  lemma WorldsNamesAreFresh(liveOf: LiveOf, world: World, s: Situation, written: Root)
    requires Consistent(liveOf, world, s) && Ready(written) && Agrees(world, written)
    ensures NamesAreFresh(s.w.objects, written)
  {
    var objects, segments := s.w.objects, written.manifest.value.segments;
    forall k | k in objects && Referenced(segments, k) ensures k in ManifestFiles(written) {
      var d :| d in segments && Under(d.name, k);
      SpecialsLieInNoDirectory(d.name, k);
    }
    assert NothingForeign(written, objects);
    if ManifestIn(objects).Some? {
      var former := s.w.published.value;
      assert ManifestIn(objects) == former.manifest;
      assert DeletesFiles(former.manifest.value.segments) <= ManifestFiles(former);
    }
  }

  lemma StoreStaysInTheWorld(world: World, sha: string -> string, w: SnapshotSafety.Writer, e: SnapshotSafety.Event,
                             n: nat)
    requires StoreAgrees(world, w.objects) && SnapshotSafety.Possible(sha, w, e) && n <= SnapshotSafety.Steps(sha, w, e)
    requires Agrees(world, e.root)
    ensures StoreAgrees(world, SnapshotSafety.During(sha, w, e, n))
  {
    var p := SnapshotSafety.PublicationIn(w, e);
    PublicationIsLegal(e.root, e.version, w.objects.Keys, w.previous);
    NamesOfPublication(p, w.objects.Keys, w.previous);
    StoreShape(sha, w.objects, p, w.previous, n);
  }

  // ---------------------------------------------------------------------------- crashes and restarts

  /**
   A batch that is cut after `cut` moments, where `written` is the local copy after its own updates. The process goes
   on, or a new one opens the local copy if its disk survived and restores the published snapshot otherwise.
   */
  datatype Life = Life(batch: Batch, written: Root, version: string, cut: nat, diskSurvives: bool, goesOn: bool)

  ghost function LifePublication(s: Situation, l: Life): (p: Publication)
    requires Ready(l.written)
    ensures Legal(p, s.w.objects.Keys, s.w.previous) && p.root == l.written
  {
    PublicationIsLegal(l.written, l.version, s.w.objects.Keys, s.w.previous);
    PublicationOf(l.written, l.version, s.w.objects.Keys, s.w.previous)
  }

  /** What readers find after each request of the publication. */
  ghost function LifeLives(liveOf: LiveOf, sha: string -> string, s: Situation, l: Life): seq<Live>
    requires Ready(l.written)
  {
    LivesFound(liveOf, StoresSeen(sha, s.w.objects, LifePublication(s, l)))
  }

  ghost function LifeMoments(liveOf: LiveOf, sha: string -> string, s: Situation, l: Life): seq<Moment>
    requires WellFormedBatch(l.batch) && Ready(l.written)
  {
    Moments(s.t, l.batch, LifeLives(liveOf, sha, s, l))
  }

  ghost predicate PossibleLife(liveOf: LiveOf, sha: string -> string, world: World, s: Situation, l: Life) {
    && WellFormedBatch(l.batch) && l.batch.keepsDocuments
    && Ready(l.written) && Agrees(world, l.written) && LocalLive(liveOf, l.written) == Indexed(s.t, l.batch).local
    && l.cut <= |LifeMoments(liveOf, sha, s, l)|
    && (l.goesOn ==> l.cut == |LifeMoments(liveOf, sha, s, l)| && l.diskSurvives)
  }

  /** The moments of a batch before its publication. */
  function Preparation(t: Moment, b: Batch): nat
    requires forall u | u in b.upserts :: u.Upsert?
  {
    (if b.keepsDocuments then |b.upserts| else 0) + |IndexMoments(t, b)|
  }

  /** How many of the publication's requests are among the first `cut` moments. */
  function RequestsDone(t: Moment, b: Batch, requests: nat, cut: nat): (n: nat)
    requires forall u | u in b.upserts :: u.Upsert?
    ensures n <= requests
  {
    if cut <= Preparation(t, b) then 0
    else if cut - Preparation(t, b) <= requests then cut - Preparation(t, b) else requests
  }

  ghost function LifeEvent(liveOf: LiveOf, sha: string -> string, s: Situation, l: Life): SnapshotSafety.Event
    requires WellFormedBatch(l.batch) && Ready(l.written)
  {
    if l.goesOn then SnapshotSafety.Published(l.written, l.version)
    else SnapshotSafety.Crashed(l.written, l.version, RequestsDone(s.t, l.batch, |LifeLives(liveOf, sha, s, l)|, l.cut))
  }

  lemma LifeIsPossible(liveOf: LiveOf, sha: string -> string, world: World, s: Situation, l: Life)
    requires PossibleLife(liveOf, sha, world, s, l)
    ensures SnapshotSafety.Possible(sha, s.w, LifeEvent(liveOf, sha, s, l))
    ensures SnapshotSafety.Steps(sha, s.w, LifeEvent(liveOf, sha, s, l))
            == if l.goesOn then |LifeLives(liveOf, sha, s, l)|
               else RequestsDone(s.t, l.batch, |LifeLives(liveOf, sha, s, l)|, l.cut)
    ensures |LifeLives(liveOf, sha, s, l)| == |Ops(sha, LifePublication(s, l))|
  {
    var p := LifePublication(s, l);
    OpsPrefix(sha, p, 0);
  }

  ghost function MomentAt(t: Moment, moments: seq<Moment>, cut: nat): Moment
    requires cut <= |moments|
  {
    if cut == 0 then t else moments[cut - 1]
  }

  ghost function Restarted(liveOf: LiveOf, sha: string -> string, world: World, s: Situation, l: Life): Situation
    requires PossibleLife(liveOf, sha, world, s, l)
  {
    LifeIsPossible(liveOf, sha, world, s, l);
    var m := MomentAt(s.t, LifeMoments(liveOf, sha, s, l), l.cut);
    Situation(if l.diskSurvives then m else m.(local := m.published),
              SnapshotSafety.After(sha, s.w, LifeEvent(liveOf, sha, s, l)))
  }

  lemma AtOfFive<T>(a: seq<T>, b: seq<T>, c: seq<T>, d: seq<T>, e: seq<T>, i: nat)
    requires i < |a| + |b| + |c| + |d| + |e|
    ensures (a + b + c + d + e)[i]
            == if i < |a| then a[i]
               else if i < |a| + |b| then b[i - |a|]
               else if i < |a| + |b| + |c| then c[i - |a| - |b|]
               else if i < |a| + |b| + |c| + |d| then d[i - |a| - |b| - |c|]
               else e[i - |a| - |b| - |c| - |d|]
  {
  }

  ghost function PublishedAfter(t: Moment, b: Batch, lives: seq<Live>, cut: nat): Live
    requires WellFormedBatch(b)
  {
    var before := Preparation(t, b);
    if cut <= before then t.published
    else if cut <= before + |lives| then lives[cut - before - 1] else FoundLast(t, lives)
  }

  lemma PublishedInEachPart(t: Moment, b: Batch, lives: seq<Live>)
    requires WellFormedBatch(b)
    ensures forall m | m in DocumentMoments(t, b.upserts) || m in IndexMoments(t, b) :: m.published == t.published
    ensures forall i | 0 <= i < |lives| :: PublishMoments(Indexed(t, b), lives)[i].published == lives[i]
    ensures forall m | m in DropMoments(Published(t, b, FoundLast(t, lives)), b.deletes)
                       || m in AckMoments(CleanedUp(t, b, FoundLast(t, lives)), b.ids) ::
              m.published == FoundLast(t, lives)
  {
  }

  /** What readers find at a moment of a batch. */
  lemma PublishedAtCut(t: Moment, b: Batch, lives: seq<Live>, cut: nat)
    requires WellFormedBatch(b) && b.keepsDocuments && cut <= |Moments(t, b, lives)|
    ensures MomentAt(t, Moments(t, b, lives), cut).published == PublishedAfter(t, b, lives, cut)
  {
    if cut > 0 {
      PublishedInEachPart(t, b, lives);
      AtOfFive(DocumentMoments(t, b.upserts), IndexMoments(t, b), PublishMoments(Indexed(t, b), lives),
               DropMoments(Published(t, b, FoundLast(t, lives)), b.deletes),
               AckMoments(CleanedUp(t, b, FoundLast(t, lives)), b.ids), cut - 1);
    }
  }

  lemma LifeReaders(liveOf: LiveOf, sha: string -> string, world: World, s: Situation, l: Life)
    requires Consistent(liveOf, world, s) && PossibleLife(liveOf, sha, world, s, l)
    ensures Readers(s.t, l.batch, LifeLives(liveOf, sha, s, l))
  {
    WorldsNamesAreFresh(liveOf, world, s, l.written);
    FindsOldThenNew(liveOf, sha, s.w.objects, LifePublication(s, l), s.w.previous,
                    StoresSeen(sha, s.w.objects, LifePublication(s, l)), Indexed(s.t, l.batch));
  }

  lemma LifeLiveIsFound(liveOf: LiveOf, sha: string -> string, s: Situation, l: Life, n: nat)
    requires Ready(l.written) && 0 < n <= |LifeLives(liveOf, sha, s, l)|
    ensures n <= |Ops(sha, LifePublication(s, l))|
    ensures LifeLives(liveOf, sha, s, l)[n - 1]
            == FoundLive(liveOf, StoreAt(sha, s.w.objects, LifePublication(s, l), n))
  {
    SeenIs(sha, s.w.objects, LifePublication(s, l), n - 1);
  }

  lemma NothingRequestedYet(sha: string -> string, objects: Objects, p: Publication)
    requires p.root.manifest.Some? && forall f | f in p.uploads :: f in p.root.files
    ensures StoreAt(sha, objects, p, 0) == objects
  {
    assert Ops(sha, p)[..0] == [];
  }

  lemma FoundAfterRequests(t: Moment, b: Batch, lives: seq<Live>, cut: nat)
    requires WellFormedBatch(b)
    ensures var n := RequestsDone(t, b, |lives|, cut);
            PublishedAfter(t, b, lives, cut) == if n == 0 then t.published else lives[n - 1]
  {
  }

  /** What readers find at the cut is what the store holds after the requests made until then. */
  lemma MomentIsFound(liveOf: LiveOf, sha: string -> string, world: World, s: Situation, l: Life, n: nat)
    requires Consistent(liveOf, world, s) && PossibleLife(liveOf, sha, world, s, l)
    requires n == RequestsDone(s.t, l.batch, |LifeLives(liveOf, sha, s, l)|, l.cut)
    ensures |Ops(sha, LifePublication(s, l))| == |LifeLives(liveOf, sha, s, l)|
    ensures PublishedAfter(s.t, l.batch, LifeLives(liveOf, sha, s, l), l.cut)
            == FoundLive(liveOf, StoreAt(sha, s.w.objects, LifePublication(s, l), n))
  {
    OpsPrefix(sha, LifePublication(s, l), 0);
    FoundAfterRequests(s.t, l.batch, LifeLives(liveOf, sha, s, l), l.cut);
    if n == 0 {
      NothingRequestedYet(sha, s.w.objects, LifePublication(s, l));
    } else {
      LifeLiveIsFound(liveOf, sha, s, l, n);
    }
  }

  lemma StoreAtRestart(liveOf: LiveOf, sha: string -> string, world: World, s: Situation, l: Life, n: nat)
    requires PossibleLife(liveOf, sha, world, s, l)
    requires n == RequestsDone(s.t, l.batch, |LifeLives(liveOf, sha, s, l)|, l.cut)
    ensures n <= |Ops(sha, LifePublication(s, l))|
    ensures Restarted(liveOf, sha, world, s, l).w.objects == StoreAt(sha, s.w.objects, LifePublication(s, l), n)
  {
    LifeIsPossible(liveOf, sha, world, s, l);
  }

  lemma FoundAtCut(liveOf: LiveOf, sha: string -> string, world: World, s: Situation, l: Life)
    requires Consistent(liveOf, world, s) && PossibleLife(liveOf, sha, world, s, l)
    ensures var after := Restarted(liveOf, sha, world, s, l);
            after.t.published == FoundLive(liveOf, after.w.objects)
  {
    var n := RequestsDone(s.t, l.batch, |LifeLives(liveOf, sha, s, l)|, l.cut);
    MomentIsFound(liveOf, sha, world, s, l, n);
    PublishedAtCut(s.t, l.batch, LifeLives(liveOf, sha, s, l), l.cut);
    StoreAtRestart(liveOf, sha, world, s, l, n);
  }

  lemma LifeKeepsConsistent(liveOf: LiveOf, sha: string -> string, world: World, s: Situation, l: Life)
    requires Consistent(liveOf, world, s) && PossibleLife(liveOf, sha, world, s, l)
    ensures Consistent(liveOf, world, Restarted(liveOf, sha, world, s, l))
  {
    LifeIsPossible(liveOf, sha, world, s, l);
    var e := LifeEvent(liveOf, sha, s, l);
    SnapshotSafety.EventKeepsComplete(sha, s.w, e, SnapshotSafety.Steps(sha, s.w, e));
    StoreStaysInTheWorld(world, sha, s.w, e, SnapshotSafety.Steps(sha, s.w, e));
    FoundAtCut(liveOf, sha, world, s, l);
  }

  ghost predicate PossibleLives(liveOf: LiveOf, sha: string -> string, world: World, s: Situation, ls: seq<Life>)
    decreases |ls|
  {
    ls == [] || (PossibleLife(liveOf, sha, world, s, ls[0])
                 && PossibleLives(liveOf, sha, world, Restarted(liveOf, sha, world, s, ls[0]), ls[1..]))
  }

  ghost function MomentsOf(liveOf: LiveOf, sha: string -> string, world: World, s: Situation,
                           ls: seq<Life>): seq<Moment>
    requires PossibleLives(liveOf, sha, world, s, ls)
    decreases |ls|
  {
    if ls == [] then [] else
      var after := Restarted(liveOf, sha, world, s, ls[0]);
      LifeMoments(liveOf, sha, s, ls[0])[..ls[0].cut] + [after.t] + MomentsOf(liveOf, sha, world, after, ls[1..])
  }

  lemma CutIsCovered(t: Moment, moments: seq<Moment>, cut: nat)
    requires Covered(t) && (forall m | m in moments :: Covered(m)) && cut <= |moments|
    ensures forall m | m in moments[..cut] :: Covered(m)
    ensures Covered(MomentAt(t, moments, cut))
  {
  }

  lemma LifeIsCovered(liveOf: LiveOf, sha: string -> string, world: World, s: Situation, l: Life)
    requires Covered(s.t) && Consistent(liveOf, world, s) && PossibleLife(liveOf, sha, world, s, l)
    ensures forall m | m in LifeMoments(liveOf, sha, s, l)[..l.cut] :: Covered(m)
    ensures Covered(Restarted(liveOf, sha, world, s, l).t)
  {
    LifeReaders(liveOf, sha, world, s, l);
    EveryMomentIsCovered(s.t, l.batch, LifeLives(liveOf, sha, s, l));
    CutIsCovered(s.t, LifeMoments(liveOf, sha, s, l), l.cut);
  }

  /**
   Over any number of batches, crashes between any two requests, and restarts from the local copy or from the store,
   no reachable state shows a URL without its document, as long as no file name is reused for other bytes.
   */
  lemma {:induction false} EveryReachableMomentIsCovered(liveOf: LiveOf, sha: string -> string, world: World,
                                                         s: Situation, ls: seq<Life>)
    requires Covered(s.t) && Consistent(liveOf, world, s) && PossibleLives(liveOf, sha, world, s, ls)
    ensures forall m | m in MomentsOf(liveOf, sha, world, s, ls) :: Covered(m)
    decreases |ls|
  {
    if ls != [] {
      LifeIsCovered(liveOf, sha, world, s, ls[0]);
      LifeKeepsConsistent(liveOf, sha, world, s, ls[0]);
      EveryReachableMomentIsCovered(liveOf, sha, world, Restarted(liveOf, sha, world, s, ls[0]), ls[1..]);
    }
  }

  /** A first process finds nothing. */
  function AtFirst(): Situation {
    Situation(Moment(map[], map[], map[], {}), SnapshotSafety.Writer(map[], {}, None))
  }

  /** So it is for all that ever happens. */
  lemma EveryMomentFromTheFirstIsCovered(liveOf: LiveOf, sha: string -> string, world: World, ls: seq<Life>)
    requires PossibleLives(liveOf, sha, world, AtFirst(), ls)
    ensures forall m | m in MomentsOf(liveOf, sha, world, AtFirst(), ls) :: Covered(m)
  {
    assert Consistent(liveOf, world, AtFirst());
    EveryReachableMomentIsCovered(liveOf, sha, world, AtFirst(), ls);
  }
}
