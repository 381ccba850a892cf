/**
 A worker that extracts documents and writes them as numbered part files of its own partition
 (src/beacon_scale_infra/extract/worker.py, partitioning.py, manifest.py), and what the indexing pipeline finds
 there afterwards. Pages come to the worker already extracted, discarded or missing.
 */
module ExtractWorker {
  import opened Wrappers
  import opened Collections
  import opened CorpusLines
  import opened CorpusCatalog
  import Decimal
  import Lex

  // ------------------------------------------------------------------------------------- bodies of parts

  /** Lines joined by line feeds, with one at the end. */
  function Body(lines: seq<Bytes>): Bytes {
    if lines == [] then [] else Body(lines[..|lines| - 1]) + (lines[|lines| - 1] + [LF])
  }

  predicate AllClean(lines: seq<Bytes>) {
    forall i | 0 <= i < |lines| :: IsClean(lines[i])
  }

  lemma NoBreak(line: Bytes)
    requires forall i | 0 <= i < |line| :: line[i] != LF && line[i] != CR
    ensures FirstBreak(line) == |line| && FirstBreak(line + [LF]) == |line|
  {
    FirstBreakOfNone(line);
    FirstBreakIn(line, [LF]);
  }

  lemma OneLine(line: Bytes)
    requires IsClean(line)
    ensures SplitLines(line + [LF]) == [line] && Strip(line) == line
  {
    NoBreak(line);
    var raw := line + [LF];
    assert raw[..|line|] == line && raw[|line| + 1..] == [];
    assert BreakLength(raw, |line|) == 1;
    assert SplitLines(raw) == [raw[..|line|]] + SplitLines([]);
  }

  lemma OneMoreLine(raw: Bytes, line: Bytes)
    requires IsClean(line) && (raw == [] || EndsWithLF(raw))
    ensures DocumentLines(raw + (line + [LF])) == DocumentLines(raw) + [line]
  {
    OneLine(line);
    SplitAppends(raw, line + [LF]);
    NonBlankAppends(SplitLines(raw), [line]);
    NonBlankOne(line);
  }

  /** What the catalog and the snippet resolver read from a part are the lines that the worker wrote into it. */
  lemma {:induction false} BodyHoldsTheLines(lines: seq<Bytes>)
    requires AllClean(lines)
    ensures DocumentLines(Body(lines)) == lines
    ensures Body(lines) == [] || EndsWithLF(Body(lines))
  {
    if lines != [] {
      var init, last := lines[..|lines| - 1], lines[|lines| - 1];
      BodyHoldsTheLines(init);
      OneMoreLine(Body(init), last);
      EndsAsItsEnd(Body(init), last);
      LastSplit(lines);
    }
  }

  lemma EndsAsItsEnd(front: Bytes, line: Bytes)
    ensures EndsWithLF(front + (line + [LF]))
  {
    assert (front + (line + [LF]))[|front| + |line|] == LF;
  }

  // --------------------------------------------------------------------------------------- keys of parts

  const SUFFIX := ".jsonl"
  const MAX_PARTS := 1_000_000

  function DocumentPartKey(prefix: string, worker: string, partSeq: nat): string {
    PartPrefix(prefix, worker) + (Decimal.Padded(partSeq, 6) + SUFFIX)
  }

  function DiscardedPartKey(prefix: string, worker: string, partSeq: nat): string {
    prefix + "/partition=" + worker + "/discarded-" + Decimal.Padded(partSeq, 6) + SUFFIX
  }

  lemma {:induction false} SuffixKeepsOrder(x: string, y: string, s: string)
    requires Lex.Lt(x, y) && (|x| == |y| || (x != "" && y != "" && x[0] < y[0]))
    ensures Lex.Lt(x + s, y + s)
  {
    if x[0] == y[0] {
      assert (x + s)[1..] == x[1..] + s && (y + s)[1..] == y[1..] + s;
      assert x[1..] != y[1..] by { assert x == [x[0]] + x[1..] && y == [y[0]] + y[1..]; }
      SuffixKeepsOrder(x[1..], y[1..], s);
      assert (x + s) != (y + s);
    }
  }

  lemma MaxPartsIsSixDigits()
    ensures Decimal.Pow10(6) == MAX_PARTS
  {
    assert Decimal.Pow10(3) == 1000;
    assert Decimal.Pow10(6) == 10 * Decimal.Pow10(5) == 100 * Decimal.Pow10(4) == 1000 * Decimal.Pow10(3);
  }

  lemma KeyOrder(prefix: string, worker: string, a: string, b: string)
    ensures Lex.Lt(PartPrefix(prefix, worker) + a, PartPrefix(prefix, worker) + b) <==> Lex.Lt(a, b)
  {
    var p := PartPrefix(prefix, worker);
    Lex.CommonPrefix(p, a, b);
    assert p + a == p + b ==> a == (p + a)[|p|..] == (p + b)[|p|..] == b;
  }

  lemma KeysAscend(prefix: string, worker: string, a: nat, b: nat)
    requires a < b < MAX_PARTS
    ensures Lex.Lt(DocumentPartKey(prefix, worker, a), DocumentPartKey(prefix, worker, b))
  {
    MaxPartsIsSixDigits();
    Decimal.PaddedOrder(a, b, 6);
    Decimal.PaddedIsFixed(a, 6);
    Decimal.PaddedIsFixed(b, 6);
    Decimal.FixedLength(a, 6);
    Decimal.FixedLength(b, 6);
    SuffixKeepsOrder(Decimal.Padded(a, 6), Decimal.Padded(b, 6), SUFFIX);
    KeyOrder(prefix, worker, Decimal.Padded(a, 6) + SUFFIX, Decimal.Padded(b, 6) + SUFFIX);
  }

  /** The order of keys is the order of writing exactly as long as part numbers have six digits. */
  lemma KeyOrderIsWriteOrderIff(prefix: string, worker: string, n: nat)
    ensures (forall a: nat, b: nat | a < b < n ::
              Lex.Lt(DocumentPartKey(prefix, worker, a), DocumentPartKey(prefix, worker, b)))
            <==> n <= MAX_PARTS
  {
    if n <= MAX_PARTS {
      forall a: nat, b: nat | a < b < n
        ensures Lex.Lt(DocumentPartKey(prefix, worker, a), DocumentPartKey(prefix, worker, b))
      {
        KeysAscend(prefix, worker, a, b);
      }
    } else {
      MillionthKeyIsOutOfOrder(prefix, worker);
    }
  }

  lemma MillionthKeyIsOutOfOrder(prefix: string, worker: string)
    ensures !Lex.Lt(DocumentPartKey(prefix, worker, MAX_PARTS - 1), DocumentPartKey(prefix, worker, MAX_PARTS))
  {
    MaxPartsIsSixDigits();
    Decimal.PowerDigits(6);
    Decimal.NinesDigits(6);
    var late, early := Decimal.Padded(MAX_PARTS, 6), Decimal.Padded(MAX_PARTS - 1, 6);
    assert late[0] == '1' && early[0] == '9';
    KeyOrder(prefix, worker, early + SUFFIX, late + SUFFIX);
  }

  // ------------------------------------------------------------------------------- one partition in the store

  /** A part file of documents: its number, and the lines in it. */
  datatype Part = Part(partSeq: nat, lines: seq<Bytes>)

  function KeysOf(prefix: string, worker: string, parts: seq<Part>): seq<string> {
    seq(|parts|, i requires 0 <= i < |parts| => DocumentPartKey(prefix, worker, parts[i].partSeq))
  }

  function LinesOf(parts: seq<Part>): seq<Bytes> {
    if parts == [] then [] else LinesOf(parts[..|parts| - 1]) + parts[|parts| - 1].lines
  }

  ghost predicate Numbered(parts: seq<Part>, next: nat) {
    && (forall i | 0 <= i < |parts| :: parts[i].partSeq < next)
    && (forall i, k | 0 <= i < k < |parts| :: parts[i].partSeq < parts[k].partSeq)
  }

  /** The objects whose keys start like this. */
  function Within(objects: map<string, Bytes>, start: string): map<string, Bytes> {
    map k | k in objects && StartsWith(k, start) :: objects[k]
  }

  function PartFiles(prefix: string, worker: string, parts: seq<Part>): map<string, Bytes> {
    if parts == [] then map[]
    else
      var last := parts[|parts| - 1];
      PartFiles(prefix, worker, parts[..|parts| - 1])[DocumentPartKey(prefix, worker, last.partSeq) := Body(last.lines)]
  }

  /** The document parts of a worker's partition are these, and no others. */
  ghost predicate PartitionHolds(objects: map<string, Bytes>, prefix: string, worker: string, parts: seq<Part>) {
    Within(objects, PartPrefix(prefix, worker)) == PartFiles(prefix, worker, parts)
  }

  /** The keys that a worker writes to. */
  ghost predicate OwnKey(prefix: string, worker: string, k: string) {
    exists n: nat :: k == DocumentPartKey(prefix, worker, n) || k == DiscardedPartKey(prefix, worker, n)
  }

  /** The name of `other` goes on as the keys of `worker`'s parts do. */
  predicate Intrudes(other: string, worker: string) {
    worker + "/documents-" <= other
  }

  lemma SameHead(head: string, a: string, b: string)
    ensures head + a <= head + b <==> a <= b
  {
    assert (head + a)[|head|..] == a && (head + b)[|head|..] == b;
    if a <= b {
      assert b == a + b[|a|..];
      assert head + b == head + a + b[|a|..];
    }
    if head + a <= head + b {
      assert forall i | 0 <= i < |a| :: a[i] == (head + a)[|head| + i] == (head + b)[|head| + i] == b[i];
    }
  }

  /** The only dash after the name ends the stem of the key, so that a prefix ending in a dash ends there or earlier. */
  lemma DashDecides(worker: string, other: string, stem: string, number: string)
    requires |stem| == 11 && stem[10] == '-' && (forall i | 0 <= i < 10 :: stem[i] != '-') && '-' !in number
    ensures worker + "/documents-" <= other + (stem + number)
            <==> Intrudes(other, worker) || (other == worker && stem == "/documents-")
  {
    var a, tail := worker + "/documents-", stem + number;
    if a <= other + tail {
      if |a| <= |other| {
        SameStart(a, other, tail);
      } else {
        LastDash(worker, other, stem, number);
      }
    }
    if a <= other { assert other + tail == a + (other[|a|..] + tail); }
    if other == worker && stem == "/documents-" { Associative(other, stem, number); }
  }

  lemma SameStart(a: string, b: string, c: string)
    requires a <= b + c && |a| <= |b|
    ensures a <= b
  {
    assert forall i | 0 <= i < |a| :: a[i] == (b + c)[i] == b[i];
  }

  lemma LastDash(worker: string, other: string, stem: string, number: string)
    requires |stem| == 11 && (forall i | 0 <= i < 10 :: stem[i] != '-') && '-' !in number
    requires worker + "/documents-" <= other + (stem + number) && |worker| + 11 > |other|
    ensures other == worker && stem == "/documents-"
  {
    var a, tail := worker + "/documents-", stem + number;
    var at := |a| - 1 - |other|;
    assert (other + tail)[|a| - 1] == a[|a| - 1] == '-';
    assert tail[at] == '-';
    assert at == 10;
    assert worker == a[..|worker|] == (other + tail)[..|other|] == other;
    assert "/documents-" == a[|worker|..] == (other + tail)[|other|..|other| + 11] == stem;
  }

  lemma NumbersHaveNoDash(partSeq: nat)
    ensures '-' !in Decimal.Padded(partSeq, 6) + SUFFIX
  {
  }

  /** A document part of `other` is listed with the parts of `worker` exactly if they are one, or `other` intrudes. */
  lemma DocumentKeyLiesInPartitionIff(prefix: string, worker: string, other: string, partSeq: nat)
    ensures StartsWith(DocumentPartKey(prefix, other, partSeq), PartPrefix(prefix, worker))
            <==> other == worker || Intrudes(other, worker)
  {
    var head, number := prefix + "/partition=", Decimal.Padded(partSeq, 6) + SUFFIX;
    NumbersHaveNoDash(partSeq);
    DashDecides(worker, other, "/documents-", number);
    SameHead(head, worker + "/documents-", other + ("/documents-" + number));
    Associative(head, worker, "/documents-");
    Associative(head + other, "/documents-", number);
    Associative(head, other, "/documents-" + number);
  }

  /** A part of discarded pages is listed as a document part of `worker` exactly if `other` intrudes. */
  lemma DiscardedKeyLiesInPartitionIff(prefix: string, worker: string, other: string, partSeq: nat)
    ensures StartsWith(DiscardedPartKey(prefix, other, partSeq), PartPrefix(prefix, worker))
            <==> Intrudes(other, worker)
  {
    var head, number := prefix + "/partition=", Decimal.Padded(partSeq, 6) + SUFFIX;
    NumbersHaveNoDash(partSeq);
    assert "/discarded-"[2] == 'i';
    DashDecides(worker, other, "/discarded-", number);
    SameHead(head, worker + "/documents-", other + ("/discarded-" + number));
    Associative(head, worker, "/documents-");
    Associative(head + other + "/discarded-", Decimal.Padded(partSeq, 6), SUFFIX);
    Associative(head + other, "/discarded-", number);
    Associative(head, other, "/discarded-" + number);
  }

  lemma OthersKeysStayOut(prefix: string, worker: string, other: string, k: string)
    requires OwnKey(prefix, other, k) && other != worker && !Intrudes(other, worker)
    ensures !StartsWith(k, PartPrefix(prefix, worker))
  {
    var n: nat :| k == DocumentPartKey(prefix, other, n) || k == DiscardedPartKey(prefix, other, n);
    DocumentKeyLiesInPartitionIff(prefix, worker, other, n);
    DiscardedKeyLiesInPartitionIff(prefix, worker, other, n);
  }

  /** Names without a slash never intrude. */
  lemma PlainNamesDoNotIntrude(worker: string, other: string)
    requires '/' !in other
    ensures !Intrudes(other, worker)
  {
    assert (worker + "/documents-")[|worker|] == '/';
  }

  // ------------------------------------------------------------------------------------------- the worker

  /** What reading and extracting the page of a message comes to; the line is the record as JSON. */
  datatype Extraction = Missing | Extracted(line: Bytes) | Discarded(line: Bytes)

  datatype ManifestEntry = ManifestEntry(documentCount: nat, discardedCount: nat, partFileCount: nat)

  // ------------------------------------------------------------------------------- requests to the store

  datatype Request =
    | PutObject(key: string, body: Bytes)
    | PublishUpdate(document: Bytes)
    | PutManifest(worker: string, entry: ManifestEntry)

  /** The objects that these requests leave, the last one for each key. */
  function Puts(log: seq<Request>): map<string, Bytes> {
    if log == [] then map[]
    else
      var before, r := Puts(log[..|log| - 1]), log[|log| - 1];
      if r.PutObject? then before[r.key := r.body] else before
  }

  /** The fragments of the manifest that they leave. */
  function Entries(log: seq<Request>): map<string, ManifestEntry> {
    if log == [] then map[]
    else
      var before, r := Entries(log[..|log| - 1]), log[|log| - 1];
      if r.PutManifest? then before[r.worker := r.entry] else before
  }

  function Updates(log: seq<Request>): seq<Bytes> {
    if log == [] then []
    else
      var r := log[|log| - 1];
      Updates(log[..|log| - 1]) + if r.PublishUpdate? then [r.document] else []
  }

  lemma OneMoreRequest(log: seq<Request>, r: Request)
    ensures Puts(log + [r]) == if r.PutObject? then Puts(log)[r.key := r.body] else Puts(log)
    ensures Entries(log + [r]) == if r.PutManifest? then Entries(log)[r.worker := r.entry] else Entries(log)
    ensures Updates(log + [r]) == Updates(log) + if r.PublishUpdate? then [r.document] else []
  {
    assert (log + [r])[..|log|] == log;
  }

  /** The bucket, with the fragments of the manifest by partition, and the stream of index updates. */
  class ExtractStore {
    var objects: map<string, Bytes>
    var manifest: map<string, ManifestEntry>
    var updates: seq<Bytes>
    ghost var log: seq<Request>                             // every request, in the order of arrival
    ghost const found: map<string, Bytes>                   // what was there before
    ghost const foundManifest: map<string, ManifestEntry>

    constructor (objects: map<string, Bytes>, manifest: map<string, ManifestEntry>)
      ensures Valid() && found == objects && foundManifest == manifest && log == []
    {
      this.objects, this.manifest, updates := objects, manifest, [];
      log, found, foundManifest := [], objects, manifest;
    }

    ghost predicate Valid()
      reads this
    {
      objects == found + Puts(log) && manifest == foundManifest + Entries(log) && updates == Updates(log)
    }

    method Put(key: string, body: Bytes)
      requires Valid()
      modifies this
      ensures Valid() && log == old(log) + [PutObject(key, body)]
    {
      OneMoreRequest(log, PutObject(key, body));
      objects, log := objects[key := body], log + [PutObject(key, body)];
    }

    method Publish(document: Bytes)
      requires Valid()
      modifies this
      ensures Valid() && log == old(log) + [PublishUpdate(document)]
    {
      OneMoreRequest(log, PublishUpdate(document));
      updates, log := updates + [document], log + [PublishUpdate(document)];
    }

    method WriteManifest(worker: string, entry: ManifestEntry)
      requires Valid()
      modifies this
      ensures Valid() && log == old(log) + [PutManifest(worker, entry)]
    {
      OneMoreRequest(log, PutManifest(worker, entry));
      manifest, log := manifest[worker := entry], log + [PutManifest(worker, entry)];
    }
  }

  datatype WorkerConfig = WorkerConfig(workerId: string, prefix: string, flushEveryPages: nat,
                                       maxPages: Option<nat>, idlePolls: nat, publishesUpdates: bool)

  ghost predicate OwnRequest(prefix: string, worker: string, r: Request) {
    && (r.PutObject? ==> OwnKey(prefix, worker, r.key))
    && (r.PutManifest? ==> r.worker == worker)
  }

  ghost predicate AllOwn(prefix: string, worker: string, log: seq<Request>) {
    forall i | 0 <= i < |log| :: OwnRequest(prefix, worker, log[i])
  }

  /** These requests leave exactly these parts, and write nothing that belongs to others. */
  ghost predicate Writes(prefix: string, worker: string, log: seq<Request>, parts: seq<Part>) {
    AllOwn(prefix, worker, log) && PartitionHolds(Puts(log), prefix, worker, parts)
  }

  lemma PutWithin(objects: map<string, Bytes>, start: string, key: string, body: Bytes)
    requires StartsWith(key, start)
    ensures Within(objects[key := body], start) == Within(objects, start)[key := body]
  {
  }

  lemma WritingAPart(prefix: string, worker: string, log: seq<Request>, parts: seq<Part>, part: Part)
    requires Writes(prefix, worker, log, parts) && Numbered(parts, part.partSeq)
    ensures var r, more := PutObject(DocumentPartKey(prefix, worker, part.partSeq), Body(part.lines)), parts + [part];
            Writes(prefix, worker, log + [r], more) && Entries(log + [r]) == Entries(log)
  {
    var key := DocumentPartKey(prefix, worker, part.partSeq);
    OneMoreRequest(log, PutObject(key, Body(part.lines)));
    assert (parts + [part])[..|parts|] == parts;
    assert StartsWith(key, PartPrefix(prefix, worker)) && OwnKey(prefix, worker, key);
    PutWithin(Puts(log), PartPrefix(prefix, worker), key, Body(part.lines));
  }

  lemma WritingDiscards(prefix: string, worker: string, log: seq<Request>, parts: seq<Part>, partSeq: nat, body: Bytes)
    requires Writes(prefix, worker, log, parts)
    ensures var r := PutObject(DiscardedPartKey(prefix, worker, partSeq), body);
            Writes(prefix, worker, log + [r], parts) && Entries(log + [r]) == Entries(log)
  {
    var key := DiscardedPartKey(prefix, worker, partSeq);
    OneMoreRequest(log, PutObject(key, body));
    DiscardedKeyLiesInPartitionIff(prefix, worker, worker, partSeq);
    assert OwnKey(prefix, worker, key);
    assert Within(Puts(log)[key := body], PartPrefix(prefix, worker)) == Within(Puts(log), PartPrefix(prefix, worker));
  }

  lemma WritingNoObject(prefix: string, worker: string, log: seq<Request>, parts: seq<Part>, r: Request)
    requires Writes(prefix, worker, log, parts) && OwnRequest(prefix, worker, r) && !r.PutObject?
    ensures Writes(prefix, worker, log + [r], parts)
    ensures Entries(log + [r]) == if r.PutManifest? then Entries(log)[worker := r.entry] else Entries(log)
  {
    OneMoreRequest(log, r);
  }

  // ----------------------------------------------------------------------------- what a worker does, as functions

  /** The buffers, the number of the next part, and the running totals. */
  datatype State = State(documentBuffer: seq<Bytes>, discardedBuffer: seq<Bytes>, partSeq: nat,
                         totalDocumentsWritten: nat, totalDiscardedWritten: nat, pagesProcessed: nat)

  function UpdateRequests(documents: seq<Bytes>): seq<Request> {
    seq(|documents|, i requires 0 <= i < |documents| => PublishUpdate(documents[i]))
  }

  /** The part, and only then the updates of its documents. */
  function DocumentRequests(c: WorkerConfig, partSeq: nat, documents: seq<Bytes>): seq<Request> {
    if documents == [] then []
    else [PutObject(DocumentPartKey(c.prefix, c.workerId, partSeq), Body(documents))]
         + if c.publishesUpdates then UpdateRequests(documents) else []
  }

  function DiscardRequests(c: WorkerConfig, partSeq: nat, discarded: seq<Bytes>): seq<Request> {
    if discarded == [] then [] else [PutObject(DiscardedPartKey(c.prefix, c.workerId, partSeq), Body(discarded))]
  }

  function TotalsRequest(c: WorkerConfig, s: State): Request {
    PutManifest(c.workerId, ManifestEntry(s.totalDocumentsWritten, s.totalDiscardedWritten, s.partSeq))
  }

  function WithoutDocuments(s: State): State {
    s.(documentBuffer := [], totalDocumentsWritten := s.totalDocumentsWritten + |s.documentBuffer|)
  }

  function WithoutDiscards(s: State): State {
    s.(discardedBuffer := [], totalDiscardedWritten := s.totalDiscardedWritten + |s.discardedBuffer|)
  }

  function Flushed(s: State): State {
    if s.documentBuffer == [] && s.discardedBuffer == [] then s
    else WithoutDiscards(WithoutDocuments(s)).(partSeq := s.partSeq + 1)
  }

  function BufferRequests(c: WorkerConfig, s: State): seq<Request> {
    DocumentRequests(c, s.partSeq, s.documentBuffer) + DiscardRequests(c, s.partSeq, s.discardedBuffer)
  }

  /** Documents, updates and discarded pages, and last the totals that count them. */
  function FlushRequests(c: WorkerConfig, s: State): seq<Request> {
    if s.documentBuffer == [] && s.discardedBuffer == [] then []
    else BufferRequests(c, s) + [TotalsRequest(c, Flushed(s))]
  }

  function FlushedParts(s: State): seq<Part> {
    if s.documentBuffer == [] then [] else [Part(s.partSeq, s.documentBuffer)]
  }

  function Buffered(s: State, page: Extraction): State {
    match page
    case Missing => s
    case Extracted(line) => s.(documentBuffer := s.documentBuffer + [line], pagesProcessed := s.pagesProcessed + 1)
    case Discarded(line) => s.(discardedBuffer := s.discardedBuffer + [line], pagesProcessed := s.pagesProcessed + 1)
  }

  /** A page is processed, or a run comes to its end. */
  datatype Event = Job(page: Extraction) | Stop

  /** The state that an event meets when it comes to flushing, and whether it does flush. */
  function Before(s: State, e: Event): State {
    if e.Stop? then s else Buffered(s, e.page)
  }

  predicate Flushes(c: WorkerConfig, s: State, e: Event) {
    e.Stop? || (!e.page.Missing?
                && |Before(s, e).documentBuffer| + |Before(s, e).discardedBuffer| >= c.flushEveryPages)
  }

  function After(c: WorkerConfig, s: State, e: Event): State {
    if Flushes(c, s, e) then Flushed(Before(s, e)) else Before(s, e)
  }

  function RequestsAt(c: WorkerConfig, s: State, e: Event): seq<Request> {
    if Flushes(c, s, e) then FlushRequests(c, Before(s, e)) else []
  }

  function PartsAt(c: WorkerConfig, s: State, e: Event): seq<Part> {
    if Flushes(c, s, e) then FlushedParts(Before(s, e)) else []
  }

  /** The state after these events, what was sent until then, and the document parts written. */
  function StateAfter(c: WorkerConfig, events: seq<Event>): State {
    if events == [] then State([], [], 0, 0, 0, 0)
    else After(c, StateAfter(c, events[..|events| - 1]), events[|events| - 1])
  }

  function Sent(c: WorkerConfig, events: seq<Event>): seq<Request> {
    if events == [] then []
    else
      var init := events[..|events| - 1];
      Sent(c, init) + RequestsAt(c, StateAfter(c, init), events[|events| - 1])
  }

  function PartsWritten(c: WorkerConfig, events: seq<Event>): seq<Part> {
    if events == [] then []
    else
      var init := events[..|events| - 1];
      PartsWritten(c, init) + PartsAt(c, StateAfter(c, init), events[|events| - 1])
  }

  /** What is sent during `more`, after `events`. */
  function SentDuring(c: WorkerConfig, events: seq<Event>, more: seq<Event>): seq<Request> {
    if more == [] then []
    else
      var init := more[..|more| - 1];
      SentDuring(c, events, init) + RequestsAt(c, StateAfter(c, events + init), more[|more| - 1])
  }

  /** The documents extracted, in order. */
  function Produced(events: seq<Event>): seq<Bytes> {
    if events == [] then []
    else
      var e := events[|events| - 1];
      Produced(events[..|events| - 1]) + if e.Job? && e.page.Extracted? then [e.page.line] else []
  }

  /** Each page that is extracted gives its line, in the order of the events, and nothing else gives any. */
  lemma {:induction false} ProducedLineByLine(a: seq<Event>, b: seq<Event>, e: Event)
    ensures Produced(a + b) == Produced(a) + Produced(b)
    ensures Produced([e]) == match e case Job(Extracted(line)) => [line] case _ => []
  {
    assert [e][..0] == [];
    if b == [] {
      assert a + b == a;
    } else {
      assert (a + b)[..|a + b| - 1] == a + b[..|b| - 1];
      ProducedLineByLine(a, b[..|b| - 1], e);
    }
  }

  lemma OneMoreEvent(c: WorkerConfig, events: seq<Event>, e: Event)
    ensures StateAfter(c, events + [e]) == After(c, StateAfter(c, events), e)
    ensures Sent(c, events + [e]) == Sent(c, events) + RequestsAt(c, StateAfter(c, events), e)
    ensures PartsWritten(c, events + [e]) == PartsWritten(c, events) + PartsAt(c, StateAfter(c, events), e)
    ensures Produced(events + [e]) == Produced(events) + if e.Job? && e.page.Extracted? then [e.page.line] else []
  {
    assert (events + [e])[..|events|] == events;
  }

  lemma SentStep(c: WorkerConfig, events: seq<Event>, more: seq<Event>, e: Event)
    requires Sent(c, events + more) == Sent(c, events) + SentDuring(c, events, more)
    ensures Sent(c, events + (more + [e])) == Sent(c, events) + SentDuring(c, events, more + [e])
  {
    var last := RequestsAt(c, StateAfter(c, events + more), e);
    Associative(events, more, [e]);
    OneMoreEvent(c, events + more, e);
    Associative(Sent(c, events), SentDuring(c, events, more), last);
    assert (more + [e])[..|more|] == more;
  }

  lemma {:induction false} SentSplits(c: WorkerConfig, events: seq<Event>, more: seq<Event>)
    ensures Sent(c, events + more) == Sent(c, events) + SentDuring(c, events, more)
  {
    if more == [] {
      assert events + more == events;
    } else {
      SentSplits(c, events, more[..|more| - 1]);
      LastSplit(more);
      SentStep(c, events, more[..|more| - 1], more[|more| - 1]);
    }
  }

  lemma {:induction false} SentDuringSplits(c: WorkerConfig, events: seq<Event>, a: seq<Event>, b: seq<Event>)
    ensures SentDuring(c, events, a + b) == SentDuring(c, events, a) + SentDuring(c, events + a, b)
  {
    if b == [] {
      assert a + b == a;
    } else {
      var init, e := b[..|b| - 1], b[|b| - 1];
      SentDuringSplits(c, events, a, init);
      assert (a + b)[..|a + b| - 1] == a + init && (a + b)[|a + b| - 1] == e;
      Associative(events, a, init);
      var last := RequestsAt(c, StateAfter(c, events + a + init), e);
      Associative(SentDuring(c, events, a), SentDuring(c, events + a, init), last);
    }
  }

  // -------------------------------------------------------------------------------- what that comes to

  /** Parts written and manifest sent are in step with the state. */
  ghost predicate InStep(c: WorkerConfig, s: State, sent: seq<Request>, parts: seq<Part>) {
    && Writes(c.prefix, c.workerId, sent, parts) && Numbered(parts, s.partSeq)
    && s.totalDocumentsWritten == |LinesOf(parts)|
    && Entries(sent) == if s.partSeq == 0 then map[] else map[c.workerId := TotalsRequest(c, s).entry]
  }

  lemma {:induction false} UpdatesWriteNoObject(prefix: string, worker: string, sent: seq<Request>, parts: seq<Part>,
                                                documents: seq<Bytes>)
    requires Writes(prefix, worker, sent, parts)
    ensures Writes(prefix, worker, sent + UpdateRequests(documents), parts)
    ensures Entries(sent + UpdateRequests(documents)) == Entries(sent)
  {
    if documents == [] {
      assert sent + UpdateRequests(documents) == sent;
    } else {
      var init, last := documents[..|documents| - 1], documents[|documents| - 1];
      UpdatesWriteNoObject(prefix, worker, sent, parts, init);
      WritingNoObject(prefix, worker, sent + UpdateRequests(init), parts, PublishUpdate(last));
      assert sent + UpdateRequests(documents) == sent + UpdateRequests(init) + [PublishUpdate(last)];
    }
  }

  lemma PartAndUpdatesWriteOnePart(c: WorkerConfig, part: Part, updates: seq<Bytes>, sent: seq<Request>,
                                   parts: seq<Part>)
    requires Writes(c.prefix, c.workerId, sent, parts) && Numbered(parts, part.partSeq)
    ensures var put := PutObject(DocumentPartKey(c.prefix, c.workerId, part.partSeq), Body(part.lines));
            var after := sent + ([put] + UpdateRequests(updates));
            && Writes(c.prefix, c.workerId, after, parts + [part]) && Entries(after) == Entries(sent)
  {
    var put := PutObject(DocumentPartKey(c.prefix, c.workerId, part.partSeq), Body(part.lines));
    WritingAPart(c.prefix, c.workerId, sent, parts, part);
    UpdatesWriteNoObject(c.prefix, c.workerId, sent + [put], parts + [part], updates);
    Associative(sent, [put], UpdateRequests(updates));
  }

  lemma OneMorePart(parts: seq<Part>, part: Part)
    requires Numbered(parts, part.partSeq)
    ensures Numbered(parts + [part], part.partSeq + 1) && LinesOf(parts + [part]) == LinesOf(parts) + part.lines
  {
    assert (parts + [part])[..|parts|] == parts;
  }

  lemma DocumentsWriteOnePart(c: WorkerConfig, s: State, sent: seq<Request>, parts: seq<Part>)
    requires Writes(c.prefix, c.workerId, sent, parts) && Numbered(parts, s.partSeq)
    ensures var after := sent + DocumentRequests(c, s.partSeq, s.documentBuffer);
            Writes(c.prefix, c.workerId, after, parts + FlushedParts(s)) && Entries(after) == Entries(sent)
  {
    if s.documentBuffer == [] {
      assert sent + DocumentRequests(c, s.partSeq, s.documentBuffer) == sent && parts + FlushedParts(s) == parts;
    } else {
      var updates := if c.publishesUpdates then s.documentBuffer else [];
      assert UpdateRequests([]) == [];
      PartAndUpdatesWriteOnePart(c, Part(s.partSeq, s.documentBuffer), updates, sent, parts);
    }
  }

  lemma FlushedPartsAreNext(s: State, parts: seq<Part>)
    requires Numbered(parts, s.partSeq)
    ensures Numbered(parts + FlushedParts(s), s.partSeq + 1)
    ensures LinesOf(parts + FlushedParts(s)) == LinesOf(parts) + s.documentBuffer
  {
    if s.documentBuffer == [] {
      assert parts + FlushedParts(s) == parts;
    } else {
      OneMorePart(parts, Part(s.partSeq, s.documentBuffer));
    }
  }

  lemma DiscardsWriteNoPart(c: WorkerConfig, s: State, sent: seq<Request>, parts: seq<Part>)
    requires Writes(c.prefix, c.workerId, sent, parts)
    ensures Writes(c.prefix, c.workerId, sent + DiscardRequests(c, s.partSeq, s.discardedBuffer), parts)
    ensures Entries(sent + DiscardRequests(c, s.partSeq, s.discardedBuffer)) == Entries(sent)
  {
    if s.discardedBuffer == [] {
      assert sent + DiscardRequests(c, s.partSeq, s.discardedBuffer) == sent;
    } else {
      WritingDiscards(c.prefix, c.workerId, sent, parts, s.partSeq, Body(s.discardedBuffer));
    }
  }

  /** Any totals complete what was written before. */
  lemma TotalsKeepInStep(c: WorkerConfig, s: State, sent: seq<Request>, parts: seq<Part>)
    requires Writes(c.prefix, c.workerId, sent, parts) && Numbered(parts, s.partSeq) && s.partSeq > 0
    requires s.totalDocumentsWritten == |LinesOf(parts)| && Entries(sent).Keys <= {c.workerId}
    ensures InStep(c, s, sent + [TotalsRequest(c, s)], parts)
  {
    WritingNoObject(c.prefix, c.workerId, sent, parts, TotalsRequest(c, s));
  }

  lemma BuffersWriteOnePart(c: WorkerConfig, s: State, sent: seq<Request>, parts: seq<Part>)
    requires Writes(c.prefix, c.workerId, sent, parts) && Numbered(parts, s.partSeq)
    ensures Writes(c.prefix, c.workerId, sent + BufferRequests(c, s), parts + FlushedParts(s))
    ensures Entries(sent + BufferRequests(c, s)) == Entries(sent)
  {
    var documents := DocumentRequests(c, s.partSeq, s.documentBuffer);
    DocumentsWriteOnePart(c, s, sent, parts);
    DiscardsWriteNoPart(c, s, sent + documents, parts + FlushedParts(s));
    Associative(sent, documents, DiscardRequests(c, s.partSeq, s.discardedBuffer));
  }

  lemma FlushKeepsInStep(c: WorkerConfig, s: State, sent: seq<Request>, parts: seq<Part>)
    requires InStep(c, s, sent, parts)
    ensures InStep(c, Flushed(s), sent + FlushRequests(c, s), parts + FlushedParts(s))
    ensures LinesOf(parts + FlushedParts(s)) == LinesOf(parts) + s.documentBuffer
  {
    FlushedPartsAreNext(s, parts);
    if s.documentBuffer == [] && s.discardedBuffer == [] {
      assert sent + FlushRequests(c, s) == sent && parts + FlushedParts(s) == parts;
    } else {
      BuffersWriteOnePart(c, s, sent, parts);
      TotalsKeepInStep(c, Flushed(s), sent + BufferRequests(c, s), parts + FlushedParts(s));
      Associative(sent, BufferRequests(c, s), [TotalsRequest(c, Flushed(s))]);
    }
  }

  lemma BufferingKeepsInStep(c: WorkerConfig, s: State, s': State, sent: seq<Request>, parts: seq<Part>)
    requires InStep(c, s, sent, parts)
    requires s'.partSeq == s.partSeq && s'.totalDocumentsWritten == s.totalDocumentsWritten
    requires s'.totalDiscardedWritten == s.totalDiscardedWritten
    ensures InStep(c, s', sent, parts)
  {
  }

  lemma EventKeepsInStep(c: WorkerConfig, s: State, sent: seq<Request>, parts: seq<Part>, e: Event)
    requires InStep(c, s, sent, parts)
    ensures InStep(c, After(c, s, e), sent + RequestsAt(c, s, e), parts + PartsAt(c, s, e))
    ensures LinesOf(parts + PartsAt(c, s, e)) + After(c, s, e).documentBuffer
            == LinesOf(parts) + Before(s, e).documentBuffer
  {
    BufferingKeepsInStep(c, s, Before(s, e), sent, parts);
    if Flushes(c, s, e) {
      FlushKeepsInStep(c, Before(s, e), sent, parts);
    } else {
      assert sent + RequestsAt(c, s, e) == sent && parts + PartsAt(c, s, e) == parts;
    }
  }

  /** Parts in order, followed by the buffer, are at every step the documents produced so far. */
  lemma {:induction false} PartsAndBufferAreWhatWasProduced(c: WorkerConfig, events: seq<Event>)
    ensures InStep(c, StateAfter(c, events), Sent(c, events), PartsWritten(c, events))
    ensures LinesOf(PartsWritten(c, events)) + StateAfter(c, events).documentBuffer == Produced(events)
  {
    if events != [] {
      var init, e := events[..|events| - 1], events[|events| - 1];
      PartsAndBufferAreWhatWasProduced(c, init);
      EventKeepsInStep(c, StateAfter(c, init), Sent(c, init), PartsWritten(c, init), e);
      if e.Job? && e.page.Extracted? {
        Associative(LinesOf(PartsWritten(c, init)), StateAfter(c, init).documentBuffer, [e.page.line]);
      }
    }
  }

  /** What a worker leaves behind when it has ended. */
  datatype Outcome = Outcome(sent: seq<Request>, parts: seq<Part>, partSeq: nat)

  /** It has written these parts and nothing that belongs to others, and its manifest fragment counts the lines. */
  ghost predicate Ended(prefix: string, worker: string, o: Outcome) {
    && Writes(prefix, worker, o.sent, o.parts) && Numbered(o.parts, o.partSeq)
    && Entries(o.sent).Keys == (if o.partSeq == 0 then {} else {worker})
    && (worker in Entries(o.sent) ==> Entries(o.sent)[worker].documentCount == |LinesOf(o.parts)|)
  }

  function OutcomeOf(c: WorkerConfig, events: seq<Event>): Outcome {
    Outcome(Sent(c, events), PartsWritten(c, events), StateAfter(c, events).partSeq)
  }

  /** After a run has come to its end all documents are in parts, and the manifest counts them. */
  lemma RunsEndInStep(c: WorkerConfig, events: seq<Event>)
    requires events != [] && events[|events| - 1].Stop?
    ensures Ended(c.prefix, c.workerId, OutcomeOf(c, events))
    ensures LinesOf(PartsWritten(c, events)) == Produced(events)
  {
    PartsAndBufferAreWhatWasProduced(c, events);
    assert StateAfter(c, events).documentBuffer == [];
  }

  // ------------------------------------------------------------------------------------------- the worker

  function Jobs(pages: seq<Extraction>): seq<Event> {
    seq(|pages|, i requires 0 <= i < |pages| => Job(pages[i]))
  }

  class ExtractWorker {
    const config: WorkerConfig
    const store: ExtractStore
    var documentBuffer: seq<Bytes>
    var discardedBuffer: seq<Bytes>
    var partSeq: nat
    var totalDocumentsWritten: nat
    var totalDiscardedWritten: nat
    var pagesProcessed: nat
    ghost var events: seq<Event>        // so far

    constructor (config: WorkerConfig, store: ExtractStore)
      ensures this.config == config && this.store == store && events == [] && Valid()
    {
      this.config, this.store := config, store;
      documentBuffer, discardedBuffer, partSeq, pagesProcessed := [], [], 0, 0;
      totalDocumentsWritten, totalDiscardedWritten, events := 0, 0, [];
    }

    function Now(): State
      reads this
    {
      State(documentBuffer, discardedBuffer, partSeq, totalDocumentsWritten, totalDiscardedWritten, pagesProcessed)
    }

    /** It never reads what it or others have written, so nothing that others do can change this. */
    ghost predicate Valid()
      reads this
    {
      Now() == StateAfter(config, events)
    }

    method PublishUpdates()
      requires store.Valid()
      modifies store
      ensures store.Valid() && store.log == old(store.log) + UpdateRequests(documentBuffer)
    {
      ghost var done: seq<Request> := [];
      for i := 0 to |documentBuffer|
        invariant done == UpdateRequests(documentBuffer)[..i]
        invariant store.Valid() && store.log == old(store.log) + done
      {
        Associative(old(store.log), done, [PublishUpdate(documentBuffer[i])]);
        PrefixMore(UpdateRequests(documentBuffer), i);
        store.Publish(documentBuffer[i]);
        done := done + [PublishUpdate(documentBuffer[i])];
      }
      assert done == UpdateRequests(documentBuffer);
    }

    method FlushDocuments()
      requires store.Valid()
      modifies this`documentBuffer, this`totalDocumentsWritten, store
      ensures store.Valid() && store.log == old(store.log) + DocumentRequests(config, partSeq, old(documentBuffer))
      ensures Now() == WithoutDocuments(old(Now()))
    {
      if documentBuffer == [] { return; }
      ghost var put := PutObject(DocumentPartKey(config.prefix, config.workerId, partSeq), Body(documentBuffer));
      store.Put(DocumentPartKey(config.prefix, config.workerId, partSeq), Body(documentBuffer));
      if config.publishesUpdates {
        PublishUpdates();
        Associative(old(store.log), [put], UpdateRequests(documentBuffer));
      }
      totalDocumentsWritten := totalDocumentsWritten + |documentBuffer|;
      documentBuffer := [];
    }

    method FlushDiscarded()
      requires store.Valid()
      modifies this`discardedBuffer, this`totalDiscardedWritten, store
      ensures store.Valid() && store.log == old(store.log) + DiscardRequests(config, partSeq, old(discardedBuffer))
      ensures Now() == WithoutDiscards(old(Now()))
    {
      if discardedBuffer == [] { return; }
      store.Put(DiscardedPartKey(config.prefix, config.workerId, partSeq), Body(discardedBuffer));
      totalDiscardedWritten := totalDiscardedWritten + |discardedBuffer|;
      discardedBuffer := [];
    }

    method FlushBuffers()
      requires store.Valid() && (documentBuffer != [] || discardedBuffer != [])
      modifies this`documentBuffer, this`discardedBuffer, this`partSeq, this`totalDocumentsWritten,
               this`totalDiscardedWritten, store
      ensures Now() == Flushed(old(Now()))
      ensures store.Valid() && store.log == old(store.log) + BufferRequests(config, old(Now()))
    {
      ghost var documents := DocumentRequests(config, partSeq, documentBuffer);
      ghost var discards := DiscardRequests(config, partSeq, discardedBuffer);
      FlushDocuments();
      FlushDiscarded();
      Associative(old(store.log), documents, discards);
      partSeq := partSeq + 1;
    }

    /** Writes what is buffered as new parts, and then the new totals; nothing at all if nothing is buffered. */
    method Flush()
      requires store.Valid()
      modifies this`documentBuffer, this`discardedBuffer, this`partSeq, this`totalDocumentsWritten,
               this`totalDiscardedWritten, store
      ensures Now() == Flushed(old(Now()))
      ensures store.Valid() && store.log == old(store.log) + FlushRequests(config, old(Now()))
    {
      if documentBuffer == [] && discardedBuffer == [] { return; }
      Associative(old(store.log), BufferRequests(config, Now()), [TotalsRequest(config, Flushed(Now()))]);
      FlushBuffers();
      store.WriteManifest(config.workerId, ManifestEntry(totalDocumentsWritten, totalDiscardedWritten, partSeq));
    }

    method Buffer(page: Extraction)
      modifies this`documentBuffer, this`discardedBuffer, this`pagesProcessed
      ensures Now() == Buffered(old(Now()), page)
    {
      if page.Missing? { return; }
      if page.Extracted? {
        documentBuffer := documentBuffer + [page.line];
      } else {
        discardedBuffer := discardedBuffer + [page.line];
      }
      pagesProcessed := pagesProcessed + 1;
    }

    method ProcessJob(page: Extraction)
      requires Valid() && store.Valid()
      modifies this, store
      ensures Valid() && store.Valid() && events == old(events) + [Job(page)]
      ensures store.log == old(store.log) + SentDuring(config, old(events), [Job(page)])
      ensures pagesProcessed == old(pagesProcessed) + if page.Missing? then 0 else 1
    {
      ghost var s := Now();
      OneMoreEvent(config, events, Job(page));
      OneEventSends(config, events, Job(page));
      events := events + [Job(page)];
      Buffer(page);
      if !page.Missing? && |documentBuffer| + |discardedBuffer| >= config.flushEveryPages { Flush(); }
      assert Now() == After(config, s, Job(page));
    }

    predicate ReachedMaxPages()
      reads this
    {
      config.maxPages.Some? && pagesProcessed >= config.maxPages.value
    }

    /** No more pages are processed than the cap allows. */
    predicate StaysWithinCap()
      reads this
    {
      config.maxPages.Some? ==> pagesProcessed <= config.maxPages.value
    }

    /** One batch, up to the page cap; `taken` is what was processed and acknowledged. */
    method ProcessBatch(batch: seq<Extraction>) returns (ghost taken: seq<Event>)
      requires Valid() && store.Valid()
      modifies this, store
      ensures Valid() && store.Valid()
      ensures taken in Takings(batch, ReachedMaxPages())
      ensures old(ReachedMaxPages()) ==> ReachedMaxPages() && taken == []
      ensures old(StaysWithinCap()) ==> StaysWithinCap()
      ensures events == old(events) + taken
      ensures store.log == old(store.log) + SentDuring(config, old(events), taken)
    {
      taken := [];
      var i := 0;
      while i < |batch| && !ReachedMaxPages()
        invariant 0 <= i <= |batch| && taken == Jobs(batch)[..i] && Valid() && store.Valid()
        invariant old(ReachedMaxPages()) ==> ReachedMaxPages() && taken == []
        invariant old(StaysWithinCap()) ==> StaysWithinCap()
        invariant events == old(events) + taken
        invariant store.log == old(store.log) + SentDuring(config, old(events), taken)
      {
        GoesOn(config, old(events), old(store.log), taken, [Job(batch[i])]);
        PrefixMore(Jobs(batch), i);
        ProcessJob(batch[i]);
        taken := taken + [Job(batch[i])];
        i := i + 1;
      }
      FirstAreTaken(batch, i, ReachedMaxPages());
    }

    method Finish()
      requires Valid() && store.Valid()
      modifies this, store
      ensures Valid() && store.Valid() && events == old(events) + [Stop] && pagesProcessed == old(pagesProcessed)
      ensures store.log == old(store.log) + SentDuring(config, old(events), [Stop])
    {
      OneMoreEvent(config, events, Stop);
      OneEventSends(config, events, Stop);
      events := events + [Stop];
      Flush();
    }

    /** It has come to one of these outcomes with the pages handed out so far. */
    ghost predicate IsAt(outcomes: iset<Point>, pages: seq<Extraction>)
      reads this, store
    {
      Valid() && store.Valid() && Reached(events, store.log, pages, ReachedMaxPages()) in outcomes
    }

    /** One turn of the loop; `idle` polls before it came back empty. */
    method Poll(polls: seq<seq<Extraction>>, i: nat, idle: nat, ghost outcomes: iset<Point>) returns (idle': nat)
      requires GoOn(config, outcomes) && IsAt(outcomes, PagesUpTo(polls, i)) && !ReachedMaxPages()
      modifies this, store
      ensures IsAt(outcomes, PagesUpTo(polls, i + 1))
      ensures idle' == if PollAt(polls, i) == [] then idle + 1 else 0
      ensures old(StaysWithinCap()) ==> StaysWithinCap()
    {
      var batch := PollAt(polls, i);
      ghost var before, sent := events, store.log;
      ghost var more := ProcessBatch(batch);
      OneMoreBatch(config, outcomes, before, sent, PagesUpTo(polls, i), more, batch, ReachedMaxPages());
      idle' := if batch == [] then idle + 1 else 0;
    }

    /** `idle` of the `n` polls came back empty last. */
    method PollUntilIdle(polls: seq<seq<Extraction>>, ghost outcomes: iset<Point>) returns (n: nat, idle: nat)
      requires GoOn(config, outcomes) && IsAt(outcomes, [])
      modifies this, store
      ensures IsAt(outcomes, PagesUpTo(polls, n))
      ensures (n, idle) in StatesOfPolling(polls, config.idlePolls)
      ensures ReachedMaxPages() || idle >= config.idlePolls
      ensures old(ReachedMaxPages()) ==> ReachedMaxPages()
      ensures old(StaysWithinCap()) ==> StaysWithinCap()
    {
      n, idle := 0, 0;
      PollingBegins(polls, config.idlePolls);
      while !ReachedMaxPages() && idle < config.idlePolls
        invariant (n, idle) in StatesOfPolling(polls, config.idlePolls)
        invariant IsAt(outcomes, PagesUpTo(polls, n))
        invariant old(ReachedMaxPages()) ==> ReachedMaxPages()
        invariant old(StaysWithinCap()) ==> StaysWithinCap()
        decreases if n < |polls| then |polls| - n else 0, config.idlePolls - idle
      {
        PollsOnce(polls, config.idlePolls, n, idle);
        idle := Poll(polls, n, idle, outcomes);
        n := n + 1;
      }
    }

    /**
     Polls until nothing has come for long enough or the page cap is reached, and writes out what is buffered. All
     pages that the `n` polls handed out have been processed in order, up to the cap, and everything that was sent is
     in the log.
     */
    method Run(polls: seq<seq<Extraction>>) returns (ghost taken: seq<Event>, ghost n: nat)
      requires Valid() && store.Valid() && config.idlePolls > 0
      modifies this, store
      ensures Valid() && store.Valid() && events == old(events) + taken
      ensures taken != [] && taken[|taken| - 1].Stop?
      ensures AreTakenFrom(taken[..|taken| - 1], PagesUpTo(polls, n), ReachedMaxPages())
      ensures ReachedMaxPages() || IsIdleAt(polls, config.idlePolls, n)
      ensures forall m: nat | m < n :: !IsIdleAt(polls, config.idlePolls, m)
      ensures old(ReachedMaxPages()) ==> ReachedMaxPages()
      ensures old(StaysWithinCap()) ==> StaysWithinCap()
      ensures store.log == old(store.log) + SentDuring(config, old(events), taken)
    {
      taken, n := TakePages(polls);
      GoesOn(config, old(events), old(store.log), taken, [Stop]);
      WithoutLast(taken, Stop);
      Finish();
      taken := taken + [Stop];
    }

    method TakePages(polls: seq<seq<Extraction>>) returns (ghost taken: seq<Event>, ghost n: nat)
      requires Valid() && store.Valid()
      modifies this, store
      ensures Valid() && store.Valid() && events == old(events) + taken
      ensures AreTakenFrom(taken, PagesUpTo(polls, n), ReachedMaxPages())
      ensures ReachedMaxPages() || IsIdleAt(polls, config.idlePolls, n)
      ensures forall m: nat | m < n :: !IsIdleAt(polls, config.idlePolls, m)
      ensures old(ReachedMaxPages()) ==> ReachedMaxPages()
      ensures old(StaysWithinCap()) ==> StaysWithinCap()
      ensures store.log == old(store.log) + SentDuring(config, old(events), taken)
    {
      ghost var outcomes := OutcomesOf(config, events, store.log, ReachedMaxPages());
      var idle, done;
      done, idle := PollUntilIdle(polls, outcomes);
      n := done;
      PollingEnds(polls, config.idlePolls, n, idle);
      taken := TakenBetween(config, old(events), old(store.log), outcomes, events, store.log, PagesUpTo(polls, n),
                            ReachedMaxPages());
    }
  }

  // ------------------------------------------------------------------------------------------- what polls hand out

  /** After the last that is given, a poll comes back empty. */
  function PollAt(polls: seq<seq<Extraction>>, i: nat): seq<Extraction> {
    if i < |polls| then polls[i] else []
  }

  /** The pages of the first `n` polls, one after the other. */
  function PagesUpTo(polls: seq<seq<Extraction>>, n: nat): seq<Extraction> {
    if n == 0 then [] else PagesUpTo(polls, n - 1) + PollAt(polls, n - 1)
  }

  /** Nothing has come for so many polls before the `n`th. */
  ghost predicate IsIdleAt(polls: seq<seq<Extraction>>, idlePolls: nat, n: nat) {
    idlePolls <= n && forall i | n - idlePolls <= i < n :: PollAt(polls, i) == []
  }

  /** These pages have been processed in order: all of them, unless the cap has been reached. */
  ghost predicate AreTakenFrom(taken: seq<Event>, pages: seq<Extraction>, capped: bool) {
    if capped then taken <= Jobs(pages) else taken == Jobs(pages)
  }

  /** The events, the log and whether the cap is reached, when these pages have been handed out. */
  datatype Point = Reached(events: seq<Event>, sent: seq<Request>, pages: seq<Extraction>, capped: bool)

  /** With one more batch they come to one of them again. */
  ghost predicate GoOn(c: WorkerConfig, outcomes: iset<Point>) {
    forall o, batch, more, capped | o in outcomes && !o.capped && more in Takings(batch, capped) ::
      Reached(o.events + more, o.sent + SentDuring(c, o.events, more), o.pages + batch, capped) in outcomes
  }

  lemma OneMoreBatch(c: WorkerConfig, outcomes: iset<Point>, events: seq<Event>, sent: seq<Request>,
                     pages: seq<Extraction>, more: seq<Event>, batch: seq<Extraction>, capped: bool)
    requires GoOn(c, outcomes) && Reached(events, sent, pages, false) in outcomes && more in Takings(batch, capped)
    ensures Reached(events + more, sent + SentDuring(c, events, more), pages + batch, capped) in outcomes
  {
    var o := Reached(events, sent, pages, false);
    assert o in outcomes && !o.capped;
  }

  ghost predicate IsOutcome(c: WorkerConfig, was: seq<Event>, log: seq<Request>, o: Point) {
    && was <= o.events && AreTakenFrom(o.events[|was|..], o.pages, o.capped)
    && o.sent == log + SentDuring(c, was, o.events[|was|..])
  }

  lemma NothingIsTaken(c: WorkerConfig, was: seq<Event>, log: seq<Request>, capped: bool)
    ensures IsOutcome(c, was, log, Reached(was, log, [], capped))
  {
    assert was[|was|..] == [] && log + [] == log;
  }

  ghost predicate AreOutcomes(c: WorkerConfig, was: seq<Event>, log: seq<Request>, outcomes: iset<Point>) {
    forall o {:trigger IsOutcome(c, was, log, o)} :: o in outcomes <==> IsOutcome(c, was, log, o)
  }

  lemma OutcomesOf(c: WorkerConfig, was: seq<Event>, log: seq<Request>, capped: bool) returns (outcomes: iset<Point>)
    ensures GoOn(c, outcomes) && Reached(was, log, [], capped) in outcomes
    ensures AreOutcomes(c, was, log, outcomes)
  {
    outcomes := iset o | IsOutcome(c, was, log, o);
    OutcomesGoOn(c, was, log, outcomes);
    NothingIsTaken(c, was, log, capped);
  }

  lemma OutcomesGoOn(c: WorkerConfig, was: seq<Event>, log: seq<Request>, outcomes: iset<Point>)
    requires AreOutcomes(c, was, log, outcomes)
    ensures GoOn(c, outcomes)
  {
    forall o, batch, more, now | o in outcomes && !o.capped && more in Takings(batch, now)
      ensures Reached(o.events + more, o.sent + SentDuring(c, o.events, more), o.pages + batch, now) in outcomes
    {
      OutcomeGoesOn(c, was, log, outcomes, o, more, batch, now);
    }
  }

  lemma OutcomeGoesOn(c: WorkerConfig, was: seq<Event>, log: seq<Request>, outcomes: iset<Point>, o: Point,
                      more: seq<Event>, batch: seq<Extraction>, capped: bool)
    requires AreOutcomes(c, was, log, outcomes) && o in outcomes && !o.capped && more in Takings(batch, capped)
    ensures Reached(o.events + more, o.sent + SentDuring(c, o.events, more), o.pages + batch, capped) in outcomes
  {
    assert IsOutcome(c, was, log, o);
    MoreIsTaken(c, was, log, o, more, batch,
                Reached(o.events + more, o.sent + SentDuring(c, o.events, more), o.pages + batch, capped));
  }

  lemma MoreIsTaken(c: WorkerConfig, was: seq<Event>, log: seq<Request>, o: Point, more: seq<Event>,
                    batch: seq<Extraction>, next: Point)
    requires IsOutcome(c, was, log, o) && !o.capped && more in Takings(batch, next.capped)
    requires next.events == o.events + more && next.sent == o.sent + SentDuring(c, o.events, more)
    requires next.pages == o.pages + batch
    ensures IsOutcome(c, was, log, next)
  {
    var taken := o.events[|was|..];
    TakenGoesOn(taken, o.pages, more, batch, next.capped);
    GoesOn(c, was, log, taken, more);
    assert was + taken == o.events;
    assert next.events[|was|..] == taken + more;
  }

  lemma TakenBetween(c: WorkerConfig, was: seq<Event>, log: seq<Request>, outcomes: iset<Point>, events: seq<Event>,
                     sent: seq<Request>, pages: seq<Extraction>, capped: bool)
      returns (taken: seq<Event>)
    requires AreOutcomes(c, was, log, outcomes) && Reached(events, sent, pages, capped) in outcomes
    ensures AreTakenFrom(taken, pages, capped) && events == was + taken && sent == log + SentDuring(c, was, taken)
  {
    assert IsOutcome(c, was, log, Reached(events, sent, pages, capped));
    taken := events[|was|..];
  }

  /** The last `idle` of `i` polls have come back empty, and so many as it takes to stop did so only now. */
  ghost predicate HasPolled(polls: seq<seq<Extraction>>, idlePolls: nat, i: nat, idle: nat) {
    && idle <= idlePolls && IsIdleAt(polls, idle, i) && (idle == i || PollAt(polls, i - idle - 1) != [])
    && (forall m: nat | m < i :: !IsIdleAt(polls, idlePolls, m))
    && (idle < idlePolls ==> !IsIdleAt(polls, idlePolls, i))
  }

  /** After how many polls, and how many empty ones in a row, the loop may be. */
  ghost function StatesOfPolling(polls: seq<seq<Extraction>>, idlePolls: nat): iset<(nat, nat)> {
    iset i: nat, idle: nat | HasPolled(polls, idlePolls, i, idle) :: (i, idle)
  }

  lemma PollingBegins(polls: seq<seq<Extraction>>, idlePolls: nat)
    ensures (0, 0) in StatesOfPolling(polls, idlePolls)
  {
    assert HasPolled(polls, idlePolls, 0, 0);
  }

  lemma PollsOnce(polls: seq<seq<Extraction>>, idlePolls: nat, i: nat, idle: nat)
    requires (i, idle) in StatesOfPolling(polls, idlePolls) && idle < idlePolls
    ensures (i + 1, if PollAt(polls, i) == [] then idle + 1 else 0) in StatesOfPolling(polls, idlePolls)
  {
    var idle' := if PollAt(polls, i) == [] then idle + 1 else 0;
    if idle' <= i { assert PollAt(polls, i - idle') != []; }
    assert HasPolled(polls, idlePolls, i + 1, idle');
  }

  lemma PollingEnds(polls: seq<seq<Extraction>>, idlePolls: nat, i: nat, idle: nat)
    requires (i, idle) in StatesOfPolling(polls, idlePolls)
    ensures idle >= idlePolls ==> IsIdleAt(polls, idlePolls, i)
    ensures forall m: nat | m < i :: !IsIdleAt(polls, idlePolls, m)
  {
  }

  lemma WithoutLast<T>(s: seq<T>, x: T)
    ensures (s + [x])[..|s + [x]| - 1] == s
  {
  }

  ghost function Takings(pages: seq<Extraction>, capped: bool): iset<seq<Event>> {
    iset taken | AreTakenFrom(taken, pages, capped)
  }

  lemma FirstAreTaken(pages: seq<Extraction>, n: nat, capped: bool)
    requires n <= |pages| && (n == |pages| || capped)
    ensures Jobs(pages)[..n] in Takings(pages, capped)
  {
  }

  lemma TakenGoesOn(taken: seq<Event>, pages: seq<Extraction>, more: seq<Event>, batch: seq<Extraction>, capped: bool)
    requires taken in Takings(pages, false) && more in Takings(batch, capped)
    ensures taken + more in Takings(pages + batch, capped)
  {
    assert Jobs(pages + batch) == Jobs(pages) + Jobs(batch);
    assert AreTakenFrom(taken + more, pages + batch, capped);
  }

  lemma OneEventSends(c: WorkerConfig, events: seq<Event>, e: Event)
    ensures SentDuring(c, events, [e]) == RequestsAt(c, StateAfter(c, events), e)
  {
    assert [e][..0] == [] && events + [] == events;
  }

  lemma GoesOn(c: WorkerConfig, events: seq<Event>, log: seq<Request>, taken: seq<Event>, more: seq<Event>)
    ensures events + taken + more == events + (taken + more)
    ensures log + SentDuring(c, events, taken) + SentDuring(c, events + taken, more)
            == log + SentDuring(c, events, taken + more)
  {
    Associative(events, taken, more);
    SentDuringSplits(c, events, taken, more);
    Associative(log, SentDuring(c, events, taken), SentDuring(c, events + taken, more));
  }
}
