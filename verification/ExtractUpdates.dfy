/**
 What an extract worker announces: index updates, which come after the part that holds their documents, and the totals
 of its manifest fragment; and what becomes of discarded pages (src/beacon_scale_infra/extract/worker.py).
 */
module ExtractUpdates {
  import opened Collections
  import opened CorpusLines
  import opened CorpusCatalog
  import opened ExtractWorker

  // -------------------------------------------------------------------------------------- index updates

  lemma {:induction false} UpdatesAppend(a: seq<Request>, b: seq<Request>)
    ensures Updates(a + b) == Updates(a) + Updates(b)
  {
    if b == [] {
      assert a + b == a;
    } else {
      var init, last := b[..|b| - 1], b[|b| - 1];
      assert (a + b)[..|a + b| - 1] == a + init && (a + b)[|a + b| - 1] == last;
      UpdatesAppend(a, init);
    }
  }

  lemma {:induction false} UpdatesAreDocuments(documents: seq<Bytes>)
    ensures Updates(UpdateRequests(documents)) == documents
  {
    if documents != [] {
      var n := |documents| - 1;
      UpdatesAreDocuments(documents[..n]);
      assert UpdateRequests(documents)[..n] == UpdateRequests(documents[..n]);
      LastSplit(documents);
    }
  }

  lemma OneRequestUpdates(r: Request)
    ensures Updates([r]) == if r.PublishUpdate? then [r.document] else []
  {
    assert [r][..0] == [];
  }

  lemma ThreeUpdate(a: seq<Request>, b: seq<Request>, c: seq<Request>)
    requires Updates(b) == [] && Updates(c) == []
    ensures Updates(a + b + c) == Updates(a)
  {
    UpdatesAppend(a, b);
    UpdatesAppend(a + b, c);
  }

  /** What a flush announces are the documents it has just written. */
  lemma FlushAnnounces(c: WorkerConfig, s: State)
    ensures Updates(FlushRequests(c, s)) == if c.publishesUpdates then s.documentBuffer else []
  {
    DocumentsAnnounce(c, s.partSeq, s.documentBuffer);
    DiscardsAnnounceNothing(c, s.partSeq, s.discardedBuffer);
    OneRequestUpdates(TotalsRequest(c, Flushed(s)));
    ThreeUpdate(DocumentRequests(c, s.partSeq, s.documentBuffer), DiscardRequests(c, s.partSeq, s.discardedBuffer),
                [TotalsRequest(c, Flushed(s))]);
  }

  lemma DiscardsAnnounceNothing(c: WorkerConfig, partSeq: nat, discarded: seq<Bytes>)
    ensures Updates(DiscardRequests(c, partSeq, discarded)) == []
  {
    OneRequestUpdates(PutObject(DiscardedPartKey(c.prefix, c.workerId, partSeq), Body(discarded)));
  }

  lemma DocumentsAnnounce(c: WorkerConfig, partSeq: nat, documents: seq<Bytes>)
    ensures Updates(DocumentRequests(c, partSeq, documents)) == if c.publishesUpdates then documents else []
  {
    if documents != [] {
      var put := PutObject(DocumentPartKey(c.prefix, c.workerId, partSeq), Body(documents));
      OneRequestUpdates(put);
      UpdatesAppend([put], if c.publishesUpdates then UpdateRequests(documents) else []);
      UpdatesAreDocuments(documents);
    }
  }

  lemma EventAnnounces(c: WorkerConfig, s: State, sent: seq<Request>, parts: seq<Part>, e: Event)
    requires InStep(c, s, sent, parts) && Updates(sent) == if c.publishesUpdates then LinesOf(parts) else []
    ensures Updates(sent + RequestsAt(c, s, e))
            == if c.publishesUpdates then LinesOf(parts + PartsAt(c, s, e)) else []
  {
    UpdatesAppend(sent, RequestsAt(c, s, e));
    if Flushes(c, s, e) {
      FlushAnnounces(c, Before(s, e));
      FlushedPartsAreNext(Before(s, e), parts);
    } else {
      assert parts + PartsAt(c, s, e) == parts;
    }
  }

  /** With a stream for updates each document that is written is announced once, in the order of writing. */
  lemma {:induction false} UpdatesAreWhatWasWritten(c: WorkerConfig, events: seq<Event>)
    ensures Updates(Sent(c, events)) == if c.publishesUpdates then LinesOf(PartsWritten(c, events)) else []
  {
    if events != [] {
      var init, e := events[..|events| - 1], events[|events| - 1];
      UpdatesAreWhatWasWritten(c, init);
      PartsAndBufferAreWhatWasProduced(c, init);
      EventAnnounces(c, StateAfter(c, init), Sent(c, init), PartsWritten(c, init), e);
    }
  }

  // ------------------------------------------------------------------------- parts first, whenever it is cut off

  /** Whatever has been announced is in a part. */
  ghost predicate IsBacked(c: WorkerConfig, sent: seq<Request>, parts: seq<Part>) {
    Writes(c.prefix, c.workerId, sent, parts) && Updates(sent) <= LinesOf(parts)
  }

  /** An update, a part of discarded pages or the totals. */
  ghost predicate IsNoPart(c: WorkerConfig, partSeq: nat, r: Request) {
    && (r.PutObject? ==> r.key == DiscardedPartKey(c.prefix, c.workerId, partSeq))
    && (r.PutManifest? ==> r.worker == c.workerId)
  }

  ghost predicate NoneIsPart(c: WorkerConfig, partSeq: nat, requests: seq<Request>) {
    forall k | 0 <= k < |requests| :: IsNoPart(c, partSeq, requests[k])
  }

  lemma WritingElsewhere(c: WorkerConfig, sent: seq<Request>, parts: seq<Part>, partSeq: nat, r: Request)
    requires Writes(c.prefix, c.workerId, sent, parts) && IsNoPart(c, partSeq, r)
    ensures Writes(c.prefix, c.workerId, sent + [r], parts)
  {
    if r.PutObject? {
      WritingDiscards(c.prefix, c.workerId, sent, parts, partSeq, r.body);
    } else {
      WritingNoObject(c.prefix, c.workerId, sent, parts, r);
    }
  }

  lemma {:induction false} OthersWriteNoPart(c: WorkerConfig, sent: seq<Request>, parts: seq<Part>, partSeq: nat,
                                             requests: seq<Request>)
    requires Writes(c.prefix, c.workerId, sent, parts) && NoneIsPart(c, partSeq, requests)
    ensures Writes(c.prefix, c.workerId, sent + requests, parts)
  {
    if requests == [] {
      assert sent + requests == sent;
    } else {
      var n := |requests| - 1;
      OthersWriteNoPart(c, sent, parts, partSeq, requests[..n]);
      WritingElsewhere(c, sent + requests[..n], parts, partSeq, requests[n]);
      LastSplit(requests);
      Associative(sent, requests[..n], [requests[n]]);
    }
  }

  /** A flush starts with its part, if it has one. */
  lemma FlushStartsWithPart(c: WorkerConfig, s: State) returns (first: seq<Request>, rest: seq<Request>)
    ensures FlushRequests(c, s) == first + rest && NoneIsPart(c, s.partSeq, rest)
    ensures first == if s.documentBuffer == [] then []
                     else [PutObject(DocumentPartKey(c.prefix, c.workerId, s.partSeq), Body(s.documentBuffer))]
  {
    var all := FlushRequests(c, s);
    var n := if s.documentBuffer == [] then 0 else 1;
    first, rest := all[..n], all[n..];
    assert all == first + rest;
  }

  lemma PartIsWritten(c: WorkerConfig, s: State, sent: seq<Request>, parts: seq<Part>, first: seq<Request>)
    requires Writes(c.prefix, c.workerId, sent, parts) && Numbered(parts, s.partSeq)
    requires first == if s.documentBuffer == [] then []
                      else [PutObject(DocumentPartKey(c.prefix, c.workerId, s.partSeq), Body(s.documentBuffer))]
    ensures Writes(c.prefix, c.workerId, sent + first, parts + FlushedParts(s))
  {
    if s.documentBuffer == [] {
      assert sent + first == sent && parts + FlushedParts(s) == parts;
    } else {
      WritingAPart(c.prefix, c.workerId, sent, parts, Part(s.partSeq, s.documentBuffer));
    }
  }

  lemma CutOfConcat<T>(a: seq<T>, b: seq<T>, m: nat)
    requires |a| <= m <= |a| + |b|
    ensures (a + b)[..m] == a + b[..m - |a|]
  {
  }

  /** Once its first request is out, a flush leaves its part. */
  lemma StartOfFlushWrites(c: WorkerConfig, sent: seq<Request>, first: seq<Request>, rest: seq<Request>,
                           parts: seq<Part>, partSeq: nat, m: nat)
    requires Writes(c.prefix, c.workerId, sent + first, parts) && NoneIsPart(c, partSeq, rest)
    requires |first| <= m <= |first| + |rest|
    ensures Writes(c.prefix, c.workerId, sent + (first + rest)[..m], parts)
  {
    var some := rest[..m - |first|];
    CutOfConcat(first, rest, m);
    assert NoneIsPart(c, partSeq, some);
    OthersWriteNoPart(c, sent + first, parts, partSeq, some);
    Associative(sent, first, some);
  }

  lemma FlushedSoFar(c: WorkerConfig, s: State, sent: seq<Request>, parts: seq<Part>, requests: seq<Request>, m: nat)
    requires Writes(c.prefix, c.workerId, sent, parts) && Numbered(parts, s.partSeq)
    requires requests == FlushRequests(c, s) && 0 < m <= |requests|
    ensures Writes(c.prefix, c.workerId, sent + requests[..m], parts + FlushedParts(s))
  {
    var first, rest := FlushStartsWithPart(c, s);
    PartIsWritten(c, s, sent, parts, first);
    StartOfFlushWrites(c, sent, first, rest, parts + FlushedParts(s), s.partSeq, m);
  }

  lemma PrefixIsBacked(sent: seq<Request>, requests: seq<Request>, m: nat)
    requires m <= |requests|
    ensures Updates(sent + requests[..m]) <= Updates(sent + requests)
  {
    UpdatesAppend(sent + requests[..m], requests[m..]);
    assert requests == requests[..m] + requests[m..];
    Associative(sent, requests[..m], requests[m..]);
  }

  lemma CutDuringEvent(c: WorkerConfig, s: State, sent: seq<Request>, parts: seq<Part>, e: Event,
                       requests: seq<Request>, m: nat)
      returns (written: seq<Part>)
    requires InStep(c, s, sent, parts) && Updates(sent) == if c.publishesUpdates then LinesOf(parts) else []
    requires requests == RequestsAt(c, s, e) && 0 < m <= |requests|
    ensures IsBacked(c, sent + requests[..m], written)
  {
    written := parts + FlushedParts(Before(s, e));
    FlushedSoFar(c, Before(s, e), sent, parts, requests, m);
    EventAnnounces(c, s, sent, parts, e);
    PrefixIsBacked(sent, requests, m);
  }

  ghost predicate HasBacking(c: WorkerConfig, sent: seq<Request>) {
    exists parts :: IsBacked(c, sent, parts)
  }

  /** These logs are backed, and all others that a flush may leave when it is cut off. */
  ghost predicate HasEveryCut(c: WorkerConfig, backed: iset<seq<Request>>) {
    && [] in backed
    && forall events, e, m: nat | 0 < m <= |RequestsAt(c, StateAfter(c, events), e)| ::
         Sent(c, events) + RequestsAt(c, StateAfter(c, events), e)[..m] in backed
  }

  lemma CutDuringLast(c: WorkerConfig, events: seq<Event>, e: Event, m: nat)
    requires 0 < m <= |RequestsAt(c, StateAfter(c, events), e)|
    ensures HasBacking(c, Sent(c, events) + RequestsAt(c, StateAfter(c, events), e)[..m])
  {
    PartsAndBufferAreWhatWasProduced(c, events);
    UpdatesAreWhatWasWritten(c, events);
    var written := CutDuringEvent(c, StateAfter(c, events), Sent(c, events), PartsWritten(c, events), e,
                                  RequestsAt(c, StateAfter(c, events), e), m);
  }

  lemma NothingIsBacked(c: WorkerConfig)
    ensures HasBacking(c, [])
  {
    assert Within(Puts([]), PartPrefix(c.prefix, c.workerId)) == map[];
    assert IsBacked(c, [], []);
  }

  lemma EveryCutIsBacked(c: WorkerConfig) returns (backed: iset<seq<Request>>)
    ensures HasEveryCut(c, backed)
    ensures forall sent | sent in backed :: HasBacking(c, sent)
  {
    backed := iset sent | HasBacking(c, sent);
    NothingIsBacked(c);
    forall events, e, m: nat | 0 < m <= |RequestsAt(c, StateAfter(c, events), e)|
      ensures Sent(c, events) + RequestsAt(c, StateAfter(c, events), e)[..m] in backed
    {
      CutDuringLast(c, events, e, m);
    }
  }

  lemma {:induction false} EveryPrefixIsACut(c: WorkerConfig, events: seq<Event>, n: nat, backed: iset<seq<Request>>)
    requires n <= |Sent(c, events)| && HasEveryCut(c, backed)
    ensures Sent(c, events)[..n] in backed
  {
    if events == [] {
      assert Sent(c, events)[..n] == [];
    } else {
      var init, e := events[..|events| - 1], events[|events| - 1];
      var before, requests := Sent(c, init), RequestsAt(c, StateAfter(c, init), e);
      if n <= |before| {
        EveryPrefixIsACut(c, init, n, backed);
        assert (before + requests)[..n] == before[..n];
      } else {
        CutOfConcat(before, requests, n);
        assert before + requests[..n - |before|] in backed;
      }
    }
  }

  /** Wherever a worker is cut off, each update that it has sent is of a document in one of the parts it has written. */
  lemma EveryUpdateIsBacked(c: WorkerConfig, events: seq<Event>, n: nat) returns (written: seq<Part>)
    requires n <= |Sent(c, events)|
    ensures IsBacked(c, Sent(c, events)[..n], written)
  {
    var backed := EveryCutIsBacked(c);
    EveryPrefixIsACut(c, events, n, backed);
    assert HasBacking(c, Sent(c, events)[..n]);
    written :| IsBacked(c, Sent(c, events)[..n], written);
  }

  // ----------------------------------------------------------------------------------------- when it flushes

  function Buffers(s: State): nat {
    |s.documentBuffer| + |s.discardedBuffer|
  }

  /** Never are as many pages kept back as it takes to flush, and a page that is one too few sends nothing. */
  lemma {:induction false} BuffersAreFlushedInTime(c: WorkerConfig, events: seq<Event>, page: Extraction)
    requires c.flushEveryPages > 0
    ensures Buffers(StateAfter(c, events)) < c.flushEveryPages
    ensures Sent(c, events) <= Sent(c, events + [Job(page)])
    ensures Sent(c, events + [Job(page)]) != Sent(c, events) ==>
              !page.Missing? && Buffers(StateAfter(c, events)) + 1 == c.flushEveryPages
  {
    if events != [] { BuffersAreFlushedInTime(c, events[..|events| - 1], page); }
    OneMoreEvent(c, events, Job(page));
  }

  // ------------------------------------------------------------------------- discarded pages and the totals

  /** The pages that were discarded, in order. */
  function DiscardedIn(events: seq<Event>): seq<Bytes> {
    if events == [] then []
    else
      var e := events[|events| - 1];
      DiscardedIn(events[..|events| - 1]) + if e.Job? && e.page.Discarded? then [e.page.line] else []
  }

  function FlushedDiscards(s: State): seq<Part> {
    if s.discardedBuffer == [] then [] else [Part(s.partSeq, s.discardedBuffer)]
  }

  /** The parts of discarded pages that have been written. */
  function DiscardsWritten(c: WorkerConfig, events: seq<Event>): seq<Part> {
    if events == [] then []
    else
      var init, e := events[..|events| - 1], events[|events| - 1];
      var s := StateAfter(c, init);
      DiscardsWritten(c, init) + if Flushes(c, s, e) then FlushedDiscards(Before(s, e)) else []
  }

  lemma LinesOfOneMore(parts: seq<Part>, s: State)
    ensures LinesOf(parts + FlushedDiscards(s)) == LinesOf(parts) + s.discardedBuffer
  {
    if s.discardedBuffer == [] {
      assert parts + FlushedDiscards(s) == parts;
    } else {
      assert (parts + FlushedDiscards(s))[..|parts|] == parts;
    }
  }

  ghost predicate DiscardsAreSent(c: WorkerConfig, sent: seq<Request>, parts: seq<Part>) {
    forall p | p in parts :: PutObject(DiscardedPartKey(c.prefix, c.workerId, p.partSeq), Body(p.lines)) in sent
  }

  lemma FlushSendsDiscards(c: WorkerConfig, s: State, sent: seq<Request>, parts: seq<Part>)
    requires DiscardsAreSent(c, sent, parts)
    ensures DiscardsAreSent(c, sent + FlushRequests(c, s), parts + FlushedDiscards(s))
  {
    if s.discardedBuffer != [] {
      var put := PutObject(DiscardedPartKey(c.prefix, c.workerId, s.partSeq), Body(s.discardedBuffer));
      assert DiscardRequests(c, s.partSeq, s.discardedBuffer)[0] == put;
      assert put in BufferRequests(c, s);
    }
  }

  lemma {:induction false} DiscardsAreThere(c: WorkerConfig, events: seq<Event>)
    ensures DiscardsAreSent(c, Sent(c, events), DiscardsWritten(c, events))
  {
    if events != [] {
      var init, e := events[..|events| - 1], events[|events| - 1];
      DiscardsAreThere(c, init);
      EventSendsDiscards(c, StateAfter(c, init), Sent(c, init), DiscardsWritten(c, init), e);
    }
  }

  lemma EventSendsDiscards(c: WorkerConfig, s: State, sent: seq<Request>, parts: seq<Part>, e: Event)
    requires DiscardsAreSent(c, sent, parts)
    ensures DiscardsAreSent(c, sent + RequestsAt(c, s, e),
                            parts + if Flushes(c, s, e) then FlushedDiscards(Before(s, e)) else [])
  {
    if Flushes(c, s, e) {
      FlushSendsDiscards(c, Before(s, e), sent, parts);
    } else {
      assert sent + [] == sent && parts + [] == parts;
    }
  }

  /** What is written of the pages discarded, and what is still buffered. */
  ghost predicate KeepsDiscards(s: State, parts: seq<Part>, discarded: seq<Bytes>) {
    && LinesOf(parts) + s.discardedBuffer == discarded && s.totalDiscardedWritten == |LinesOf(parts)|
    && (s.partSeq == 0 ==> parts == [])
  }

  lemma EventKeepsDiscards(c: WorkerConfig, s: State, parts: seq<Part>, discarded: seq<Bytes>, e: Event)
    requires KeepsDiscards(s, parts, discarded)
    ensures KeepsDiscards(After(c, s, e),
                          parts + if Flushes(c, s, e) then FlushedDiscards(Before(s, e)) else [],
                          discarded + if e.Job? && e.page.Discarded? then [e.page.line] else [])
  {
    var more := discarded + if e.Job? && e.page.Discarded? then [e.page.line] else [];
    BufferingKeepsDiscards(s, parts, discarded, e, more);
    if Flushes(c, s, e) {
      LinesOfOneMore(parts, Before(s, e));
      assert more + [] == more;
    } else {
      assert parts + [] == parts;
    }
  }

  lemma BufferingKeepsDiscards(s: State, parts: seq<Part>, discarded: seq<Bytes>, e: Event, more: seq<Bytes>)
    requires KeepsDiscards(s, parts, discarded)
    requires more == discarded + if e.Job? && e.page.Discarded? then [e.page.line] else []
    ensures KeepsDiscards(Before(s, e), parts, more)
  {
    if e.Job? && e.page.Discarded? {
      Associative(LinesOf(parts), s.discardedBuffer, [e.page.line]);
    } else {
      assert more == discarded;
    }
  }

  lemma {:induction false} DiscardsAreKept(c: WorkerConfig, events: seq<Event>)
    ensures KeepsDiscards(StateAfter(c, events), DiscardsWritten(c, events), DiscardedIn(events))
  {
    if events != [] {
      var init, e := events[..|events| - 1], events[|events| - 1];
      DiscardsAreKept(c, init);
      EventKeepsDiscards(c, StateAfter(c, init), DiscardsWritten(c, init), DiscardedIn(init), e);
    }
  }

  /** Discarded pages are kept in parts of their own, none is lost, and they are counted. */
  lemma DiscardsAreWhatWasDiscarded(c: WorkerConfig, events: seq<Event>)
    ensures DiscardsAreSent(c, Sent(c, events), DiscardsWritten(c, events))
    ensures LinesOf(DiscardsWritten(c, events)) + StateAfter(c, events).discardedBuffer == DiscardedIn(events)
    ensures StateAfter(c, events).totalDiscardedWritten == |LinesOf(DiscardsWritten(c, events))|
    ensures StateAfter(c, events).partSeq == 0 ==> DiscardsWritten(c, events) == []
  {
    DiscardsAreThere(c, events);
    DiscardsAreKept(c, events);
  }

  /** After a run the fragment of the manifest counts the documents and the discarded pages of the worker. */
  lemma TotalsCountThePages(c: WorkerConfig, events: seq<Event>)
    requires events != [] && events[|events| - 1].Stop?
    ensures var entries := Entries(Sent(c, events));
            if c.workerId in entries then
              entries[c.workerId]
              == ManifestEntry(|Produced(events)|, |DiscardedIn(events)|, StateAfter(c, events).partSeq)
            else DiscardedIn(events) == []
  {
    var s := StateAfter(c, events);
    PartsAndBufferAreWhatWasProduced(c, events);
    DiscardsAreWhatWasDiscarded(c, events);
    NothingStaysBuffered(c, events);
    assert LinesOf(PartsWritten(c, events)) + [] == LinesOf(PartsWritten(c, events));
    assert LinesOf(DiscardsWritten(c, events)) + [] == LinesOf(DiscardsWritten(c, events));
  }

  lemma NothingStaysBuffered(c: WorkerConfig, events: seq<Event>)
    requires events != [] && events[|events| - 1].Stop?
    ensures StateAfter(c, events).documentBuffer == [] && StateAfter(c, events).discardedBuffer == []
  {
  }
}
