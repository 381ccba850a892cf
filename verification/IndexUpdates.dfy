/**
 Updates of the incremental index, and why a batch may be coalesced
 (src/beacon_scale_infra/incremental/models.py, src/beacon_scale_infra/incremental/indexer.py:55-64).
 */
module IndexUpdates {
  import opened Wrappers
  import OrderedDict

  /** `url` is what the document itself claims; `body` is the rest of it. */
  datatype Document = Document(url: string, body: string)

  datatype Update = Upsert(url: string, document: Document) | Delete(url: string)

  /** A queue message: fields may be absent, and `document` may not be an object. */
  datatype Field = Absent | NotAnObject | Object(document: Document)
  datatype Payload = Payload(operation: Option<string>, url: Option<string>, document: Field)

  predicate Valid(u: Update) {
    u.url != "" && (u.Upsert? ==> u.document.url == u.url)
  }

  /** `IndexUpdate.from_payload`; `None` stands for the errors that `_apply_batch` counts and drops. */
  function FromPayload(p: Payload): (r: Option<Update>)
    ensures r.Some? ==> Valid(r.value)
  {
    if p.document.NotAnObject? || p.operation.None? || p.url.None? || p.url.value == "" then None
    else if p.operation.value == "upsert" then
      if p.document.Object? && p.document.document.url == p.url.value then
        Some(Upsert(p.url.value, p.document.document))
      else None
    else if p.operation.value == "delete" then
      if p.document.Absent? then Some(Delete(p.url.value)) else None
    else None
  }

  function ToPayload(u: Update): Payload {
    match u
    case Upsert(url, document) => Payload(Some("upsert"), Some(url), Object(document))
    case Delete(url) => Payload(Some("delete"), Some(url), Absent)
  }

  lemma PayloadRoundTrip(u: Update)
    ensures FromPayload(ToPayload(u)) == (if Valid(u) then Some(u) else None)
  {
    assert "upsert"[0] != "delete"[0];
  }

  /** And only what an update was written as is read: anything else is an error. */
  lemma OnlyWrittenIsRead(p: Payload, u: Update)
    ensures FromPayload(p) == Some(u) <==> Valid(u) && p == ToPayload(u)
  {
    if Valid(u) && p == ToPayload(u) { PayloadRoundTrip(u); }
  }

  type Live = map<string, Document>

  function Apply(live: Live, u: Update): Live {
    match u
    case Upsert(url, document) => live[url := document]
    case Delete(url) => live - {url}
  }

  function ApplyAll(live: Live, updates: seq<Update>): Live
    decreases |updates|
  {
    if updates == [] then live else Apply(ApplyAll(live, updates[..|updates| - 1]), updates[|updates| - 1])
  }

  /** The dictionary of `coalesce_updates` after the whole list. */
  function Latest(updates: seq<Update>): OrderedDict.Dict<string, Update>
    decreases |updates|
  {
    if updates == [] then [] else
      var u := updates[|updates| - 1];
      OrderedDict.MoveToEnd(Latest(updates[..|updates| - 1]), u.url, u)
  }

  function Upserts(d: OrderedDict.Dict<string, Update>): seq<Update> {
    if d == [] then [] else (if d[0].value.Upsert? then [d[0].value] else []) + Upserts(d[1..])
  }

  function Deletes(d: OrderedDict.Dict<string, Update>): seq<string> {
    if d == [] then [] else (if d[0].value.Delete? then [d[0].value.url] else []) + Deletes(d[1..])
  }

  /** `coalesce_updates` */
  method CoalesceUpdates(updates: seq<Update>) returns (upserts: seq<Update>, deletes: seq<string>)
    ensures upserts == Upserts(Latest(updates)) && deletes == Deletes(Latest(updates))
  {
    var latest: OrderedDict.Dict<string, Update> := [];
    for i := 0 to |updates|
      invariant latest == Latest(updates[..i])
    {
      latest := OrderedDict.Remove(latest, updates[i].url);
      latest := latest + [OrderedDict.Entry(updates[i].url, updates[i])];
      assert updates[..i + 1][..i] == updates[..i];
    }
    assert updates[..|updates|] == updates;
    upserts, deletes := Partition(latest);
  }

  method Partition(d: OrderedDict.Dict<string, Update>) returns (upserts: seq<Update>, deletes: seq<string>)
    ensures upserts == Upserts(d) && deletes == Deletes(d)
  {
    upserts, deletes := [], [];
    assert d[0..] == d;
    for i := 0 to |d|
      invariant upserts + Upserts(d[i..]) == Upserts(d)
      invariant deletes + Deletes(d[i..]) == Deletes(d)
    {
      var u := d[i].value;
      assert d[i..][1..] == d[i + 1..];
      if u.Upsert? { upserts := upserts + [u]; } else { deletes := deletes + [u.url]; }
    }
  }

  /** The last update of `url` in the list: what a batch means for that URL. */
  function LastOf(updates: seq<Update>, url: string): Option<Update>
    decreases |updates|
  {
    if updates == [] then None
    else if updates[|updates| - 1].url == url then Some(updates[|updates| - 1])
    else LastOf(updates[..|updates| - 1], url)
  }

  lemma {:induction false} LatestIsLastPerUrl(updates: seq<Update>)
    ensures OrderedDict.Unique(Latest(updates))
    ensures forall url :: OrderedDict.Lookup(Latest(updates), url) == LastOf(updates, url)
    ensures forall e | e in Latest(updates) :: e.key == e.value.url
    decreases |updates|
  {
    if updates != [] {
      var init, u := updates[..|updates| - 1], updates[|updates| - 1];
      LatestIsLastPerUrl(init);
      OrderedDict.MoveToEndMembers(Latest(init), u.url, u);
    }
  }

  lemma {:induction false} SplitMembers(d: OrderedDict.Dict<string, Update>)
    ensures forall u :: u in Upserts(d) <==> u.Upsert? && exists e :: e in d && e.value == u
    ensures forall url :: url in Deletes(d) <==> exists e :: e in d && e.value == Delete(url)
  {
    if d != [] {
      SplitMembers(d[1..]);
      assert d == [d[0]] + d[1..];
      forall u | u in Upserts(d) ensures exists e :: e in d && e.value == u {
        if u in Upserts(d[1..]) { var e :| e in d[1..] && e.value == u; assert e in d; } else { assert d[0] in d; }
      }
      forall url | url in Deletes(d) ensures exists e :: e in d && e.value == Delete(url) {
        if url in Deletes(d[1..]) {
          var e :| e in d[1..] && e.value == Delete(url);
          assert e in d;
        } else {
          assert d[0] in d;
        }
      }
    }
  }

  /** The batch holds, for every URL, its last update and no other: as a document or as a deletion. */
  lemma CoalescedIsLastPerUrl(updates: seq<Update>)
    ensures forall u :: u in Upserts(Latest(updates)) <==> u.Upsert? && LastOf(updates, u.url) == Some(u)
    ensures forall url :: url in Deletes(Latest(updates)) <==> LastOf(updates, url) == Some(Delete(url))
  {
    LatestIsLastPerUrl(updates);
    var d := Latest(updates);
    SplitMembers(d);
    forall u: Update ensures (exists e :: e in d && e.value == u) <==> LastOf(updates, u.url) == Some(u) {
      OrderedDict.LookupIsMember(d, u.url);
      if e :| e in d && e.value == u { assert e == OrderedDict.Entry(u.url, u); }
      if LastOf(updates, u.url) == Some(u) { assert OrderedDict.Entry(u.url, u) in d; }
    }
    forall url ensures url in Deletes(d) <==> LastOf(updates, url) == Some(Delete(url)) {
      assert Delete(url).url == url;
    }
  }

  lemma {:induction false} ApplyAllPerUrl(live: Live, updates: seq<Update>, url: string)
    ensures var r := ApplyAll(live, updates);
            match LastOf(updates, url)
            case None => (url in r <==> url in live) && (url in live ==> r[url] == live[url])
            case Some(Upsert(_, document)) => url in r && r[url] == document
            case Some(Delete(_)) => url !in r
    decreases |updates|
  {
    if updates != [] {
      ApplyAllPerUrl(live, updates[..|updates| - 1], url);
    }
  }

  function DocumentsOf(upserts: seq<Update>): Live
    requires forall u | u in upserts :: u.Upsert?
  {
    if upserts == [] then map[] else
      var last := upserts[|upserts| - 1];
      DocumentsOf(upserts[..|upserts| - 1])[last.url := last.document]
  }

  lemma {:induction false} DocumentsOfMembers(upserts: seq<Update>)
    requires forall u | u in upserts :: u.Upsert?
    ensures forall url :: url in DocumentsOf(upserts) <==> exists u :: u in upserts && u.url == url
    ensures forall url | url in DocumentsOf(upserts) ::
              exists u :: u in upserts && u == Upsert(url, DocumentsOf(upserts)[url])
    decreases |upserts|
  {
    if upserts != [] {
      var init, u := upserts[..|upserts| - 1], upserts[|upserts| - 1];
      DocumentsOfMembers(init);
      assert upserts == init + [u];
      assert u in upserts && u == Upsert(u.url, u.document);
      forall v | v in init ensures v in upserts {}
    }
  }

  /** What `add_documents` followed by `delete_urls` does to the live documents. */
  function ApplyBatch(live: Live, upserts: seq<Update>, deletes: seq<string>): Live
    requires forall u | u in upserts :: u.Upsert?
  {
    live + DocumentsOf(upserts) - set url | url in deletes
  }

  lemma CoalescedAreUpserts(updates: seq<Update>)
    ensures forall u | u in Upserts(Latest(updates)) :: u.Upsert?
    ensures forall u | u in Upserts(Latest(updates)) :: u.url !in Deletes(Latest(updates))
  {
    CoalescedIsLastPerUrl(updates);
  }

  function ApplyCoalesced(live: Live, updates: seq<Update>): Live {
    CoalescedAreUpserts(updates);
    ApplyBatch(live, Upserts(Latest(updates)), Deletes(Latest(updates)))
  }

  /** All documents, then all deletions, of a coalesced batch: the same as the updates one by one. */
  lemma BatchIsOneByOne(live: Live, updates: seq<Update>)
    ensures ApplyCoalesced(live, updates) == ApplyAll(live, updates)
  {
    CoalescedIsLastPerUrl(updates);
    var upserts, deletes := Upserts(Latest(updates)), Deletes(Latest(updates));
    DocumentsOfMembers(upserts);
    var a, b := ApplyCoalesced(live, updates), ApplyAll(live, updates);
    forall url ensures url in a <==> url in b
      ensures url in a && url in b ==> a[url] == b[url]
    {
      ApplyAllPerUrl(live, updates, url);
      if LastOf(updates, url).Some? && LastOf(updates, url).value.Upsert? {
        assert LastOf(updates, url).value.url == url by { LastHasUrl(updates, url); }
        assert LastOf(updates, url).value in upserts;
      } else if LastOf(updates, url).Some? {
        LastHasUrl(updates, url);
        assert LastOf(updates, url) == Some(Delete(url));
      }
    }
  }

  lemma {:induction false} LastHasUrl(updates: seq<Update>, url: string)
    ensures LastOf(updates, url).Some? ==>
              LastOf(updates, url).value.url == url && LastOf(updates, url).value in updates
    decreases |updates|
  {
    if updates != [] && updates[|updates| - 1].url != url {
      LastHasUrl(updates[..|updates| - 1], url);
    }
  }

  function Concat(batches: seq<seq<Update>>): seq<Update>
    decreases |batches|
  {
    if batches == [] then [] else Concat(batches[..|batches| - 1]) + batches[|batches| - 1]
  }

  function ApplyBatches(live: Live, batches: seq<seq<Update>>): Live
    decreases |batches|
  {
    if batches == [] then live else ApplyCoalesced(ApplyBatches(live, batches[..|batches| - 1]), batches[|batches| - 1])
  }

  lemma {:induction false} ApplyAllConcat(live: Live, a: seq<Update>, b: seq<Update>)
    ensures ApplyAll(live, a + b) == ApplyAll(ApplyAll(live, a), b)
    decreases |b|
  {
    if b == [] {
      assert a + b == a;
    } else {
      ApplyAllConcat(live, a, b[..|b| - 1]);
      assert (a + b)[..|a + b| - 1] == a + b[..|b| - 1];
    }
  }

  /** However a stream is cut into batches, the live documents are those of the stream. */
  lemma {:induction false} AnyCutIsTheStream(live: Live, batches: seq<seq<Update>>)
    ensures ApplyBatches(live, batches) == ApplyAll(live, Concat(batches))
    decreases |batches|
  {
    if batches != [] {
      var init, last := batches[..|batches| - 1], batches[|batches| - 1];
      AnyCutIsTheStream(live, init);
      BatchIsOneByOne(ApplyBatches(live, init), last);
      ApplyAllConcat(live, Concat(init), last);
    }
  }

  /** Whether replaying `updates` on `live` would change what `url` shows. */
  ghost predicate Agrees(live: Live, updates: seq<Update>, url: string) {
    match LastOf(updates, url)
    case None => true
    case Some(Upsert(_, document)) => url in live && live[url] == document
    case Some(Delete(_)) => url !in live
  }

  /** Redelivery is harmless exactly when the last redelivered update of every URL is what is live. */
  lemma ReplayIsHarmlessIff(live: Live, updates: seq<Update>)
    ensures ApplyAll(live, updates) == live <==> forall url :: Agrees(live, updates, url)
  {
    var r := ApplyAll(live, updates);
    forall url
      ensures Agrees(live, updates, url)
              <==> (url in r <==> url in live) && (url in r && url in live ==> r[url] == live[url])
    {
      ApplyAllPerUrl(live, updates, url);
    }
    if forall url :: Agrees(live, updates, url) {
      assert r.Keys == live.Keys;
    }
  }

  /** In particular a replayed suffix of what was applied, in whatever batches it comes again. */
  lemma ReplayOfASuffix(live: Live, applied: seq<Update>, suffix: seq<Update>, again: seq<seq<Update>>)
    requires Concat(again) == suffix
    ensures ApplyBatches(ApplyAll(live, applied + suffix), again) == ApplyAll(live, applied + suffix)
  {
    var before := ApplyAll(live, applied);
    var after := ApplyAll(before, suffix);
    ApplyAllConcat(live, applied, suffix);
    AnyCutIsTheStream(after, again);
    forall url ensures Agrees(after, suffix, url) {
      ApplyAllPerUrl(before, suffix, url);
    }
    ReplayIsHarmlessIff(after, suffix);
  }

  /** Replaying only an older part is not: the stale document comes back. */
  lemma StaleReplayResurrects(document: Document)
    ensures var applied := [Upsert(document.url, document), Delete(document.url)];
            ApplyAll(ApplyAll(map[], applied), applied[..1]) != ApplyAll(map[], applied)
  {
    var applied := [Upsert(document.url, document), Delete(document.url)];
    assert applied[..1] == [Upsert(document.url, document)];
    ApplyAllPerUrl(map[], applied, document.url);
    ApplyAllPerUrl(ApplyAll(map[], applied), applied[..1], document.url);
  }
}
