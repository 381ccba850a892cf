/**
 From extraction to indexing: any number of extract workers write into one store, their requests interleaved in any
 way, and when they have all ended the indexing pipeline finds what it expects there. What it finds when a worker has
 started again under its old name is stated as well (src/beacon_scale_infra/extract/worker.py, partitioning.py,
 manifest.py and src/beacon_scale_infra/index/pipeline.py).
 */
module CorpusHandover {
  import opened Wrappers
  import opened Collections
  import opened CorpusLines
  import opened CorpusCatalog
  import opened ExtractWorker
  import opened IndexPipeline
  import opened DocIdRanges
  import opened InvertedIndex
  import Decimal
  import Lex

  // -------------------------------------------------------------------------------- the parts of one partition

  /** Lines as `json.dumps` writes them, each of which can be read back. */
  ghost predicate Readable(parse: Parser, lines: seq<Bytes>) {
    AllClean(lines) && AllParse(parse, lines)
  }

  lemma ReadableConcat(parse: Parser, a: seq<Bytes>, b: seq<Bytes>)
    ensures Readable(parse, a + b) <==> Readable(parse, a) && Readable(parse, b)
  {
    if Readable(parse, a + b) {
      assert forall k | 0 <= k < |a| :: (a + b)[k] == a[k];
      assert forall k | 0 <= k < |b| :: (a + b)[|a| + k] == b[k];
    }
  }

  lemma {:induction false} EachPartIsReadable(parse: Parser, parts: seq<Part>, i: nat)
    requires i < |parts| && Readable(parse, LinesOf(parts))
    ensures Readable(parse, parts[i].lines)
  {
    var init, last := parts[..|parts| - 1], parts[|parts| - 1];
    ReadableConcat(parse, LinesOf(init), last.lines);
    if i < |init| { EachPartIsReadable(parse, init, i); }
  }

  lemma KeysDiffer(prefix: string, worker: string, a: nat, b: nat)
    requires DocumentPartKey(prefix, worker, a) == DocumentPartKey(prefix, worker, b)
    ensures a == b
  {
    var p := PartPrefix(prefix, worker);
    var x, y := Decimal.Padded(a, 6), Decimal.Padded(b, 6);
    assert x + SUFFIX == DocumentPartKey(prefix, worker, a)[|p|..]
        && y + SUFFIX == DocumentPartKey(prefix, worker, b)[|p|..];
    assert |x| == |y| && x == (x + SUFFIX)[..|x|] && y == (y + SUFFIX)[..|y|];
    Decimal.PaddedIsInjective(a, b, 6);
  }

  lemma {:induction false} PartFilesAreThere(prefix: string, worker: string, parts: seq<Part>)
    ensures forall k :: k in PartFiles(prefix, worker, parts) <==> k in KeysOf(prefix, worker, parts)
  {
    if parts != [] {
      var init, last := parts[..|parts| - 1], parts[|parts| - 1];
      PartFilesAreThere(prefix, worker, init);
      assert KeysOf(prefix, worker, parts)
          == KeysOf(prefix, worker, init) + [DocumentPartKey(prefix, worker, last.partSeq)];
    }
  }

  /** With parts numbered apart, each key has its own part. */
  lemma {:induction false} PartFileHolds(prefix: string, worker: string, parts: seq<Part>, next: nat, i: nat)
    requires Numbered(parts, next) && i < |parts|
    ensures var key := DocumentPartKey(prefix, worker, parts[i].partSeq);
            key in PartFiles(prefix, worker, parts) && PartFiles(prefix, worker, parts)[key] == Body(parts[i].lines)
  {
    var init, last := parts[..|parts| - 1], parts[|parts| - 1];
    if i < |init| {
      PartFileHolds(prefix, worker, init, next, i);
      if DocumentPartKey(prefix, worker, parts[i].partSeq) == DocumentPartKey(prefix, worker, last.partSeq) {
        KeysDiffer(prefix, worker, parts[i].partSeq, last.partSeq);
      }
    }
  }

  lemma ListedKeysAreThoseOfTheParts(b: Bucket, prefix: string, worker: string, parts: seq<Part>, next: nat)
    requires PartitionHolds(b.objects, prefix, worker, parts) && Numbered(parts, next)
    ensures AllDifferent(DocumentPartKeys(b, prefix, worker)) && AllDifferent(KeysOf(prefix, worker, parts))
    ensures forall k :: k in DocumentPartKeys(b, prefix, worker) <==> k in KeysOf(prefix, worker, parts)
  {
    var keys := KeysOf(prefix, worker, parts);
    var listed := set k | k in b.objects && StartsWith(k, PartPrefix(prefix, worker));
    PartFilesAreThere(prefix, worker, parts);
    Lex.SortedIsSorted(listed);
    forall i, k | 0 <= i < k < |keys| ensures keys[i] != keys[k] {
      if keys[i] == keys[k] { KeysDiffer(prefix, worker, parts[i].partSeq, parts[k].partSeq); }
    }
    forall k ensures k in Lex.Sorted(listed) <==> k in keys {
      assert k in listed <==> k in Within(b.objects, PartPrefix(prefix, worker));
    }
  }

  /** Listing the parts of a partition in the order of their keys gives them in the order in which they were written. */
  lemma PartsAreListedInOrder(b: Bucket, prefix: string, worker: string, parts: seq<Part>)
    requires PartitionHolds(b.objects, prefix, worker, parts) && Numbered(parts, MAX_PARTS)
    ensures DocumentPartKeys(b, prefix, worker) == KeysOf(prefix, worker, parts)
  {
    var keys := KeysOf(prefix, worker, parts);
    ListedKeysAreThoseOfTheParts(b, prefix, worker, parts, MAX_PARTS);
    Lex.SortedIsSorted(set k | k in b.objects && StartsWith(k, PartPrefix(prefix, worker)));
    forall i, k | 0 <= i < k < |keys| ensures Lex.Lt(keys[i], keys[k]) {
      KeysAscend(prefix, worker, parts[i].partSeq, parts[k].partSeq);
    }
    Lex.AscendingIsUnique(keys, DocumentPartKeys(b, prefix, worker));
  }

  lemma PartHoldsItsLines(b: Bucket, parse: Parser, prefix: string, worker: string, parts: seq<Part>, next: nat, i: nat)
    requires PartitionHolds(b.objects, prefix, worker, parts) && Numbered(parts, next)
    requires Readable(parse, LinesOf(parts))
    requires i < |parts|
    ensures DocumentLines(RawOf(b, DocumentPartKey(prefix, worker, parts[i].partSeq))) == parts[i].lines
  {
    var key := DocumentPartKey(prefix, worker, parts[i].partSeq);
    PartFileHolds(prefix, worker, parts, next, i);
    assert key in Within(b.objects, PartPrefix(prefix, worker));
    EachPartIsReadable(parse, parts, i);
    BodyHoldsTheLines(parts[i].lines);
  }

  lemma NextRecordsAreTheLines(b: Bucket, parse: Parser, prefix: string, worker: string, parts: seq<Part>, next: nat,
                               n: nat)
    requires PartitionHolds(b.objects, prefix, worker, parts) && Numbered(parts, next)
    requires Readable(parse, LinesOf(parts))
    requires n < |parts| && RecordsUpTo(b, KeysOf(prefix, worker, parts), n) == LinesOf(parts[..n])
    ensures RecordsUpTo(b, KeysOf(prefix, worker, parts), n + 1) == LinesOf(parts[..n + 1])
  {
    assert parts[..n + 1][..n] == parts[..n];
    PartHoldsItsLines(b, parse, prefix, worker, parts, next, n);
  }

  lemma {:induction false} RecordsAreTheLines(b: Bucket, parse: Parser, prefix: string, worker: string,
                                              parts: seq<Part>, next: nat, n: nat)
    requires PartitionHolds(b.objects, prefix, worker, parts) && Numbered(parts, next)
    requires Readable(parse, LinesOf(parts))
    requires n <= |parts|
    ensures RecordsUpTo(b, KeysOf(prefix, worker, parts), n) == LinesOf(parts[..n])
  {
    if n > 0 {
      RecordsAreTheLines(b, parse, prefix, worker, parts, next, n - 1);
      NextRecordsAreTheLines(b, parse, prefix, worker, parts, next, n - 1);
    }
  }

  function LineCount(b: Bucket): string -> nat {
    k => |DocumentLines(RawOf(b, k))|
  }

  lemma {:induction false} RecordsCount(b: Bucket, keys: seq<string>, n: nat)
    requires n <= |keys|
    ensures |RecordsUpTo(b, keys, n)| == Total(LineCount(b), keys[..n])
  {
    if n > 0 {
      RecordsCount(b, keys, n - 1);
      assert keys[..n][..n - 1] == keys[..n - 1];
    }
  }

  lemma PartsCount(b: Bucket, parse: Parser, prefix: string, worker: string, parts: seq<Part>, next: nat)
    requires PartitionHolds(b.objects, prefix, worker, parts) && Numbered(parts, next)
    requires Readable(parse, LinesOf(parts))
    ensures Total(LineCount(b), KeysOf(prefix, worker, parts)) == |LinesOf(parts)|
  {
    var keys := KeysOf(prefix, worker, parts);
    RecordsCount(b, keys, |keys|);
    RecordsAreTheLines(b, parse, prefix, worker, parts, next, |parts|);
    assert keys[..|keys|] == keys && parts[..|parts|] == parts;
  }

  /** However many parts there are: the pipeline counts as many documents as were written. */
  lemma PartitionCount(b: Bucket, parse: Parser, prefix: string, worker: string, parts: seq<Part>, next: nat)
    requires PartitionHolds(b.objects, prefix, worker, parts) && Numbered(parts, next)
    requires Readable(parse, LinesOf(parts))
    ensures |PartitionRecords(b, prefix, worker)| == |LinesOf(parts)|
  {
    var listed, keys := DocumentPartKeys(b, prefix, worker), KeysOf(prefix, worker, parts);
    ListedKeysAreThoseOfTheParts(b, prefix, worker, parts, next);
    TotalOfSameMembers(LineCount(b), listed, keys);
    RecordsCount(b, listed, |listed|);
    PartsCount(b, parse, prefix, worker, parts, next);
    assert listed[..|listed|] == listed;
  }

  /**
   The documents that the pipeline reads from a partition are those that its worker produced, in order, as long as
   it has written no more than a million parts.
   */
  lemma PartitionIsWhatWasProduced(b: Bucket, parse: Parser, prefix: string, worker: string, parts: seq<Part>)
    requires PartitionHolds(b.objects, prefix, worker, parts) && Numbered(parts, MAX_PARTS)
    requires Readable(parse, LinesOf(parts))
    ensures PartitionRecords(b, prefix, worker) == LinesOf(parts)
  {
    PartsAreListedInOrder(b, prefix, worker, parts);
    RecordsAreTheLines(b, parse, prefix, worker, parts, MAX_PARTS, |parts|);
    assert parts[..|parts|] == parts;
  }

  lemma PartsAreGood(b: Bucket, parse: Parser, prefix: string, worker: string, parts: seq<Part>, next: nat)
    requires PartitionHolds(b.objects, prefix, worker, parts) && Numbered(parts, next)
    requires Readable(parse, LinesOf(parts))
    requires b.unreadable == {}
    ensures forall k | k in DocumentPartKeys(b, prefix, worker) :: PartIsGood(b, parse, k)
  {
    ListedKeysAreThoseOfTheParts(b, prefix, worker, parts, next);
    forall k | k in DocumentPartKeys(b, prefix, worker) ensures PartIsGood(b, parse, k) {
      var i :| 0 <= i < |parts| && KeysOf(prefix, worker, parts)[i] == k;
      PartHoldsItsLines(b, parse, prefix, worker, parts, next, i);
      EachPartIsReadable(parse, parts, i);
    }
  }

  /** Whether the pipeline accepts a partition depends on the count of its lines only. */
  lemma PartitionIsGoodIff(b: Bucket, parse: Parser, prefix: string, parts: seq<Part>, next: nat,
                           range: PartitionDocIdRange)
    requires PartitionHolds(b.objects, prefix, range.partitionKey, parts) && Numbered(parts, next)
    requires Readable(parse, LinesOf(parts)) && b.unreadable == {}
    ensures PartitionIsGood(b, parse, prefix, range) <==> range.startDocId + |LinesOf(parts)| == range.endDocId
  {
    PartsAreGood(b, parse, prefix, range.partitionKey, parts, next);
    PartitionCount(b, parse, prefix, range.partitionKey, parts, next);
  }

  // ----------------------------------------------------------------------------- several workers, interleaved

  /** A request, and the worker it comes from. */
  datatype Tagged = Tagged(worker: string, request: Request)

  /** The requests as the store receives them. */
  function Untagged(log: seq<Tagged>): seq<Request> {
    seq(|log|, i requires 0 <= i < |log| => log[i].request)
  }

  /** The requests of one worker. */
  function Of(log: seq<Tagged>, worker: string): seq<Request> {
    if log == [] then []
    else
      var last := log[|log| - 1];
      Of(log[..|log| - 1], worker) + if last.worker == worker then [last.request] else []
  }

  datatype WorkerRun = WorkerRun(config: WorkerConfig, events: seq<Event>)

  /** A worker of this name has come to its end, and this is what it sent. */
  ghost predicate IsRun(prefix: string, worker: string, run: WorkerRun, sent: seq<Request>) {
    && run.config.workerId == worker && run.config.prefix == prefix
    && run.events != [] && run.events[|run.events| - 1].Stop?
    && sent == Sent(run.config, run.events)
  }

  /** These workers have come to their ends, their requests interleaved like this. */
  ghost predicate IsExtraction(prefix: string, runs: map<string, WorkerRun>, log: seq<Tagged>) {
    && (forall w | w in runs :: IsRun(prefix, w, runs[w], Of(log, w)))
    && (forall i | 0 <= i < |log| :: log[i].worker in runs)
  }

  /** Nobody who has sent anything has a name that intrudes on this worker's. */
  ghost predicate IsUndisturbed(log: seq<Tagged>, w: string) {
    forall i | 0 <= i < |log| && log[i].worker != w :: !Intrudes(log[i].worker, w)
  }

  lemma {:induction false} AllOwnMeansEach(prefix: string, log: seq<Tagged>, i: nat)
    requires i < |log| && AllOwn(prefix, log[i].worker, Of(log, log[i].worker))
    ensures OwnRequest(prefix, log[i].worker, log[i].request)
  {
    var init, last, worker := log[..|log| - 1], log[|log| - 1], log[i].worker;
    var before, sent := Of(init, worker), Of(log, worker);
    assert forall k | 0 <= k < |before| :: sent[k] == before[k];
    if i < |init| {
      AllOwnMeansEach(prefix, init, i);
    } else {
      assert sent[|before|] == last.request;
    }
  }

  /** For this worker's partition and manifest fragment, the two logs come to the same. */
  ghost predicate AgreeFor(prefix: string, worker: string, a: seq<Request>, b: seq<Request>) {
    && Within(Puts(a), PartPrefix(prefix, worker)) == Within(Puts(b), PartPrefix(prefix, worker))
    && (worker in Entries(a) <==> worker in Entries(b))
    && (worker in Entries(a) ==> Entries(a)[worker] == Entries(b)[worker])
  }

  lemma BothGoOn(prefix: string, worker: string, a: seq<Request>, b: seq<Request>, r: Request)
    requires AgreeFor(prefix, worker, a, b)
    ensures AgreeFor(prefix, worker, a + [r], b + [r])
  {
    OneMoreRequest(a, r);
    OneMoreRequest(b, r);
    if r.PutObject? { SamePut(Puts(a), Puts(b), PartPrefix(prefix, worker), r.key, r.body); }
  }

  lemma SamePut(a: map<string, Bytes>, b: map<string, Bytes>, start: string, k: string, body: Bytes)
    requires Within(a, start) == Within(b, start)
    ensures Within(a[k := body], start) == Within(b[k := body], start)
  {
    forall j | StartsWith(j, start) ensures (j in a <==> j in b) && (j in a ==> a[j] == b[j]) {
      assert j in Within(a, start) <==> j in Within(b, start);
    }
  }

  lemma ForeignPut(a: map<string, Bytes>, start: string, k: string, body: Bytes)
    requires !StartsWith(k, start)
    ensures Within(a[k := body], start) == Within(a, start)
  {
  }

  lemma AnotherGoesOn(prefix: string, worker: string, other: string, a: seq<Request>, b: seq<Request>, r: Request)
    requires AgreeFor(prefix, worker, a, b)
    requires other != worker && !Intrudes(other, worker) && OwnRequest(prefix, other, r)
    ensures AgreeFor(prefix, worker, a + [r], b)
  {
    OneMoreRequest(a, r);
    if r.PutObject? {
      OthersKeysStayOut(prefix, worker, other, r.key);
      ForeignPut(Puts(a), PartPrefix(prefix, worker), r.key, r.body);
    }
  }

  /** What a worker finds in its partition and in the manifest is what it has sent itself, whatever the others send. */
  lemma {:induction false} InterleavingIsHarmless(prefix: string, log: seq<Tagged>, worker: string)
    requires forall i | 0 <= i < |log| :: OwnRequest(prefix, log[i].worker, log[i].request)
    requires IsUndisturbed(log, worker)
    ensures AgreeFor(prefix, worker, Untagged(log), Of(log, worker))
  {
    if log != [] {
      var init, last := log[..|log| - 1], log[|log| - 1];
      InterleavingIsHarmless(prefix, init, worker);
      assert Untagged(log) == Untagged(init) + [last.request];
      if last.worker == worker {
        BothGoOn(prefix, worker, Untagged(init), Of(init, worker), last.request);
      } else {
        AnotherGoesOn(prefix, worker, last.worker, Untagged(init), Of(init, worker), last.request);
        assert Of(log, worker) == Of(init, worker);
      }
    }
  }

  lemma EveryRequestIsOwn(prefix: string, runs: map<string, WorkerRun>, log: seq<Tagged>)
    requires IsExtraction(prefix, runs, log)
    ensures forall i | 0 <= i < |log| :: OwnRequest(prefix, log[i].worker, log[i].request)
  {
    forall i | 0 <= i < |log| ensures OwnRequest(prefix, log[i].worker, log[i].request) {
      var run := runs[log[i].worker];
      RunsEndInStep(run.config, run.events);
      AllOwnMeansEach(prefix, log, i);
    }
  }

  function PartsOf(run: WorkerRun): seq<Part> {
    PartsWritten(run.config, run.events)
  }

  /** Every worker that is not disturbed leaves its own parts behind, and a manifest fragment that counts them. */
  lemma EveryPartitionIsLeftBehind(prefix: string, found: map<string, Bytes>, runs: map<string, WorkerRun>,
                                   log: seq<Tagged>, w: string)
    requires IsExtraction(prefix, runs, log) && w in runs && IsUndisturbed(log, w)
    requires Within(found, PartPrefix(prefix, w)) == map[]
    ensures PartitionHolds(found + Puts(Untagged(log)), prefix, w, PartsOf(runs[w]))
    ensures Numbered(PartsOf(runs[w]), StateAfter(runs[w].config, runs[w].events).partSeq)
    ensures LinesOf(PartsOf(runs[w])) == Produced(runs[w].events)
    ensures w in Entries(Untagged(log)) ==> Entries(Untagged(log))[w].documentCount == |Produced(runs[w].events)|
    ensures w !in Entries(Untagged(log)) ==> Produced(runs[w].events) == []
  {
    EveryRequestIsOwn(prefix, runs, log);
    InterleavingIsHarmless(prefix, log, w);
    RunsEndInStep(runs[w].config, runs[w].events);
    NothingForeignWithin(found, Puts(Untagged(log)), PartPrefix(prefix, w));
  }

  lemma NothingForeignWithin(found: map<string, Bytes>, more: map<string, Bytes>, start: string)
    requires Within(found, start) == map[]
    ensures Within(found + more, start) == Within(more, start)
  {
    forall k | k in found ensures !StartsWith(k, start) {
      assert k in Within(found, start) <==> StartsWith(k, start);
    }
  }

  /** What the indexing pipeline reads of the manifest. */
  function CountsOf(entries: map<string, ManifestEntry>): Manifest {
    map w | w in entries :: entries[w].documentCount
  }

  lemma {:induction false} OnlyWorkersAreListed(prefix: string, log: seq<Tagged>, names: set<string>)
    requires forall i | 0 <= i < |log| :: OwnRequest(prefix, log[i].worker, log[i].request) && log[i].worker in names
    ensures Entries(Untagged(log)).Keys <= names
  {
    if log != [] {
      var init, last := log[..|log| - 1], log[|log| - 1];
      OnlyWorkersAreListed(prefix, init, names);
      assert Untagged(log) == Untagged(init) + [last.request];
      OneMoreRequest(Untagged(init), last.request);
    }
  }

  // ------------------------------------------------------------------------- a worker that starts again

  function NumbersOf(parts: seq<Part>): set<nat> {
    set p | p in parts :: p.partSeq
  }

  /** The parts that are there when `latter` has been written over `former`, in the order of their numbers. */
  function Overwritten(former: seq<Part>, latter: seq<Part>): seq<Part> {
    if former == [] then latter
    else if latter == [] then former
    else
      var p, q := former[|former| - 1], latter[|latter| - 1];
      if p.partSeq > q.partSeq then Overwritten(former[..|former| - 1], latter) + [p]
      else if p.partSeq < q.partSeq then Overwritten(former, latter[..|latter| - 1]) + [q]
      else Overwritten(former[..|former| - 1], latter[..|latter| - 1]) + [q]
  }

  /** The lines in parts of `former` whose numbers `latter` has not used. */
  function Surviving(former: seq<Part>, latter: seq<Part>): nat {
    if former == [] then 0
    else
      var p := former[|former| - 1];
      Surviving(former[..|former| - 1], latter) + if p.partSeq in NumbersOf(latter) then 0 else |p.lines|
  }

  lemma Numbers(parts: seq<Part>, next: nat)
    requires parts != [] && Numbered(parts, next)
    ensures var init, last := parts[..|parts| - 1], parts[|parts| - 1];
            && Numbered(init, last.partSeq) && last.partSeq < next && last.partSeq !in NumbersOf(init)
            && NumbersOf(parts) == NumbersOf(init) + {last.partSeq}
            && (forall n | n in NumbersOf(parts) :: n <= last.partSeq)
  {
    LastSplit(parts);
  }

  lemma OneMorePartIsNumbered(parts: seq<Part>, p: Part, next: nat)
    requires Numbered(parts, p.partSeq) && p.partSeq < next
    ensures Numbered(parts + [p], next)
  {
  }

  lemma {:induction false} OverwrittenIsNumbered(former: seq<Part>, latter: seq<Part>, next: nat)
    requires Numbered(former, next) && Numbered(latter, next)
    ensures Numbered(Overwritten(former, latter), next)
    decreases |former| + |latter|
  {
    if former != [] && latter != [] {
      var f, l, p, q := former[..|former| - 1], latter[..|latter| - 1], former[|former| - 1], latter[|latter| - 1];
      Numbers(former, next);
      Numbers(latter, next);
      if p.partSeq > q.partSeq {
        OverwrittenIsNumbered(f, latter, p.partSeq);
        OneMorePartIsNumbered(Overwritten(f, latter), p, next);
      } else if p.partSeq < q.partSeq {
        OverwrittenIsNumbered(former, l, q.partSeq);
        OneMorePartIsNumbered(Overwritten(former, l), q, next);
      } else {
        OverwrittenIsNumbered(f, l, q.partSeq);
        OneMorePartIsNumbered(Overwritten(f, l), q, next);
      }
    }
  }

  lemma PartFilesOfMore(prefix: string, worker: string, parts: seq<Part>, p: Part)
    ensures PartFiles(prefix, worker, parts + [p])
            == PartFiles(prefix, worker, parts)[DocumentPartKey(prefix, worker, p.partSeq) := Body(p.lines)]
  {
    assert (parts + [p])[..|parts|] == parts;
  }

  lemma NumberIsFree(prefix: string, worker: string, parts: seq<Part>, n: nat)
    requires n !in NumbersOf(parts)
    ensures DocumentPartKey(prefix, worker, n) !in PartFiles(prefix, worker, parts)
  {
    PartFilesAreThere(prefix, worker, parts);
    forall i | 0 <= i < |parts| ensures KeysOf(prefix, worker, parts)[i] != DocumentPartKey(prefix, worker, n) {
      assert parts[i].partSeq in NumbersOf(parts);
      if KeysOf(prefix, worker, parts)[i] == DocumentPartKey(prefix, worker, n) {
        KeysDiffer(prefix, worker, parts[i].partSeq, n);
      }
    }
  }

  lemma PutThenMerge(a: map<string, Bytes>, b: map<string, Bytes>, k: string, x: Bytes, y: Bytes)
    ensures k !in b ==> a[k := x] + b == (a + b)[k := x]
    ensures a + b[k := y] == (a + b)[k := y]
    ensures a[k := x] + b[k := y] == (a + b)[k := y]
  {
  }

  /** In the store, each later part takes the place of the earlier one with its number. */
  lemma {:induction false} OverwrittenFiles(prefix: string, worker: string, former: seq<Part>, latter: seq<Part>,
                                            next: nat)
    requires Numbered(former, next) && Numbered(latter, next)
    ensures PartFiles(prefix, worker, Overwritten(former, latter))
            == PartFiles(prefix, worker, former) + PartFiles(prefix, worker, latter)
    decreases |former| + |latter|
  {
    if former != [] && latter != [] {
      var f, l, p, q := former[..|former| - 1], latter[..|latter| - 1], former[|former| - 1], latter[|latter| - 1];
      Numbers(former, next);
      Numbers(latter, next);
      var a, b := PartFiles(prefix, worker, former), PartFiles(prefix, worker, latter);
      var a', b' := PartFiles(prefix, worker, f), PartFiles(prefix, worker, l);
      var x, y := Body(p.lines), Body(q.lines);
      if p.partSeq > q.partSeq {
        OverwrittenFiles(prefix, worker, f, latter, next);
        PartFilesOfMore(prefix, worker, Overwritten(f, latter), p);
        NumberIsFree(prefix, worker, latter, p.partSeq);
        PutThenMerge(a', b, DocumentPartKey(prefix, worker, p.partSeq), x, y);
      } else if p.partSeq < q.partSeq {
        OverwrittenFiles(prefix, worker, former, l, next);
        PartFilesOfMore(prefix, worker, Overwritten(former, l), q);
        PutThenMerge(a, b', DocumentPartKey(prefix, worker, q.partSeq), x, y);
      } else {
        OverwrittenFiles(prefix, worker, f, l, next);
        PartFilesOfMore(prefix, worker, Overwritten(f, l), q);
        PutThenMerge(a', b', DocumentPartKey(prefix, worker, q.partSeq), x, y);
      }
    }
  }

  lemma LinesOfMore(parts: seq<Part>, p: Part)
    ensures LinesOf(parts + [p]) == LinesOf(parts) + p.lines
  {
    assert (parts + [p])[..|parts|] == parts;
  }

  lemma {:induction false} OverwrittenIsReadable(parse: Parser, former: seq<Part>, latter: seq<Part>)
    requires Readable(parse, LinesOf(former)) && Readable(parse, LinesOf(latter))
    ensures Readable(parse, LinesOf(Overwritten(former, latter)))
    decreases |former| + |latter|
  {
    if former != [] && latter != [] {
      var f, l, p, q := former[..|former| - 1], latter[..|latter| - 1], former[|former| - 1], latter[|latter| - 1];
      ReadableConcat(parse, LinesOf(f), p.lines);
      ReadableConcat(parse, LinesOf(l), q.lines);
      var before := if p.partSeq > q.partSeq then Overwritten(f, latter)
                    else if p.partSeq < q.partSeq then Overwritten(former, l) else Overwritten(f, l);
      var last := if p.partSeq > q.partSeq then p else q;
      if p.partSeq > q.partSeq {
        OverwrittenIsReadable(parse, f, latter);
      } else if p.partSeq < q.partSeq {
        OverwrittenIsReadable(parse, former, l);
      } else {
        OverwrittenIsReadable(parse, f, l);
      }
      LinesOfMore(before, last);
      ReadableConcat(parse, LinesOf(before), last.lines);
    }
  }

  lemma {:induction false} NumbersAboveDoNotMatter(former: seq<Part>, latter: seq<Part>, next: nat)
    requires Numbered(latter, next) && latter != []
    requires forall p | p in former :: p.partSeq != latter[|latter| - 1].partSeq
    ensures Surviving(former, latter) == Surviving(former, latter[..|latter| - 1])
  {
    if former != [] {
      LastSplit(former);
      Numbers(latter, next);
      NumbersAboveDoNotMatter(former[..|former| - 1], latter, next);
    }
  }

  lemma OverwrittenCountBelow(former: seq<Part>, latter: seq<Part>, next: nat)
    requires Numbered(former, next) && Numbered(latter, next) && former != [] && latter != []
    requires former[|former| - 1].partSeq < latter[|latter| - 1].partSeq
    requires var l := latter[..|latter| - 1];
             |LinesOf(Overwritten(former, l))| == |LinesOf(l)| + Surviving(former, l)
    ensures |LinesOf(Overwritten(former, latter))| == |LinesOf(latter)| + Surviving(former, latter)
  {
    Numbers(former, next);
    LinesOfMore(Overwritten(former, latter[..|latter| - 1]), latter[|latter| - 1]);
    assert forall x | x in former :: x.partSeq in NumbersOf(former);
    NumbersAboveDoNotMatter(former, latter, next);
  }

  lemma OverwrittenCountAt(former: seq<Part>, latter: seq<Part>, next: nat)
    requires Numbered(former, next) && Numbered(latter, next) && former != [] && latter != []
    requires former[|former| - 1].partSeq == latter[|latter| - 1].partSeq
    requires var f, l := former[..|former| - 1], latter[..|latter| - 1];
             |LinesOf(Overwritten(f, l))| == |LinesOf(l)| + Surviving(f, l)
    ensures |LinesOf(Overwritten(former, latter))| == |LinesOf(latter)| + Surviving(former, latter)
  {
    var f := former[..|former| - 1];
    Numbers(former, next);
    LinesOfMore(Overwritten(f, latter[..|latter| - 1]), latter[|latter| - 1]);
    assert forall x | x in f :: x.partSeq in NumbersOf(f);
    NumbersAboveDoNotMatter(f, latter, next);
  }

  /** What is there in the end is what was written last, and what has survived of the rest. */
  lemma {:induction false} OverwrittenCount(former: seq<Part>, latter: seq<Part>, next: nat)
    requires Numbered(former, next) && Numbered(latter, next)
    ensures |LinesOf(Overwritten(former, latter))| == |LinesOf(latter)| + Surviving(former, latter)
    decreases |former| + |latter|
  {
    if latter == [] {
      NothingIsOverwritten(former);
    } else if former != [] {
      var f, l, p, q := former[..|former| - 1], latter[..|latter| - 1], former[|former| - 1], latter[|latter| - 1];
      Numbers(former, next);
      Numbers(latter, next);
      if p.partSeq > q.partSeq {
        OverwrittenCount(f, latter, next);
        LinesOfMore(Overwritten(f, latter), p);
      } else if p.partSeq < q.partSeq {
        OverwrittenCount(former, l, next);
        OverwrittenCountBelow(former, latter, next);
      } else {
        OverwrittenCount(f, l, next);
        OverwrittenCountAt(former, latter, next);
      }
    }
  }

  lemma {:induction false} NothingIsOverwritten(former: seq<Part>)
    ensures |LinesOf(former)| == Surviving(former, [])
  {
    if former != [] { NothingIsOverwritten(former[..|former| - 1]); }
  }

  /** Every part of the earlier run that holds documents has a number that the later run has used too. */
  ghost predicate AllReplaced(former: seq<Part>, latter: seq<Part>) {
    forall p | p in former && p.lines != [] :: p.partSeq in NumbersOf(latter)
  }

  lemma {:induction false} NothingSurvivesIff(former: seq<Part>, latter: seq<Part>)
    ensures Surviving(former, latter) == 0 <==> AllReplaced(former, latter)
  {
    if former != [] {
      LastSplit(former);
      NothingSurvivesIff(former[..|former| - 1], latter);
    }
  }

  /** Then nothing but the lines of the later run is there. */
  lemma {:induction false} ReplacedLinesAreGone(former: seq<Part>, latter: seq<Part>, next: nat)
    requires Numbered(former, next) && Numbered(latter, next) && AllReplaced(former, latter)
    ensures LinesOf(Overwritten(former, latter)) == LinesOf(latter)
    decreases |former| + |latter|
  {
    if latter == [] {
      NothingIsOverwritten(former);
      NothingSurvivesIff(former, latter);
    } else if former != [] {
      var f, l, p, q := former[..|former| - 1], latter[..|latter| - 1], former[|former| - 1], latter[|latter| - 1];
      Numbers(former, next);
      Numbers(latter, next);
      LastSplit(former);
      assert forall x | x in f :: x.partSeq in NumbersOf(f);
      if p.partSeq > q.partSeq {
        ReplacedLinesAreGone(f, latter, next);
        LinesOfMore(Overwritten(f, latter), p);
        assert p in former && p.partSeq !in NumbersOf(latter);
      } else if p.partSeq < q.partSeq {
        assert forall x | x in former :: x.partSeq in NumbersOf(former);
        ReplacedLinesAreGone(former, l, next);
        LinesOfMore(Overwritten(former, l), q);
      } else {
        ReplacedLinesAreGone(f, l, next);
        LinesOfMore(Overwritten(f, l), q);
      }
    }
  }

  /** A worker of this name has ended before, and another one of the same name ends now, and counts parts from 0. */
  ghost predicate IsRestart(prefix: string, worker: string, found: map<string, Bytes>, former: seq<Part>, next: nat,
                            run: WorkerRun, sent: seq<Request>)
  {
    PartitionHolds(found, prefix, worker, former) && Numbered(former, next) && IsRun(prefix, worker, run, sent)
  }

  lemma PartitionAfterRestart(prefix: string, worker: string, found: map<string, Bytes>, former: seq<Part>, next: nat,
                              run: WorkerRun, sent: seq<Request>)
      returns (bound: nat)
    requires IsRestart(prefix, worker, found, former, next, run, sent)
    ensures bound >= next && Numbered(former, bound) && Numbered(PartsOf(run), bound)
    ensures (next <= MAX_PARTS && StateAfter(run.config, run.events).partSeq <= MAX_PARTS) ==> bound <= MAX_PARTS
    ensures PartitionHolds(found + Puts(sent), prefix, worker, Overwritten(former, PartsOf(run)))
    ensures Numbered(Overwritten(former, PartsOf(run)), bound)
  {
    RunsEndInStep(run.config, run.events);
    var latest := StateAfter(run.config, run.events).partSeq;
    bound := if next >= latest then next else latest;
    OverwrittenIsNumbered(former, PartsOf(run), bound);
    OverwrittenFiles(prefix, worker, former, PartsOf(run), bound);
    WithinBoth(found, Puts(sent), PartPrefix(prefix, worker));
  }

  lemma WithinBoth(a: map<string, Bytes>, b: map<string, Bytes>, start: string)
    ensures Within(a + b, start) == Within(a, start) + Within(b, start)
  {
  }

  /**
   The worker's manifest counts the new documents only. The pipeline accepts the partition exactly if the number of
   every earlier part with documents in it has been used again, so that none of them is left.
   */
  lemma RestartIsAcceptedIff(b: Bucket, parse: Parser, prefix: string, found: map<string, Bytes>, former: seq<Part>,
                             next: nat, run: WorkerRun, sent: seq<Request>, range: PartitionDocIdRange)
    requires IsRestart(prefix, range.partitionKey, found, former, next, run, sent)
    requires b == Bucket(found + Puts(sent), {})
    requires Readable(parse, LinesOf(former)) && Readable(parse, Produced(run.events))
    requires range.endDocId == range.startDocId + |Produced(run.events)|
    ensures PartitionIsGood(b, parse, prefix, range) <==> AllReplaced(former, PartsOf(run))
  {
    var bound := PartitionAfterRestart(prefix, range.partitionKey, found, former, next, run, sent);
    RunsEndInStep(run.config, run.events);
    OverwrittenIsReadable(parse, former, PartsOf(run));
    PartitionIsGoodIff(b, parse, prefix, Overwritten(former, PartsOf(run)), bound, range);
    OverwrittenCount(former, PartsOf(run), bound);
    NothingSurvivesIff(former, PartsOf(run));
  }

  /**
   A later run that wrote only discarded pages takes the worker off the count, so the pipeline does not look at it.
   */
  lemma RestartWithoutDocumentsIsLeftOut(prefix: string, worker: string, found: map<string, Bytes>, former: seq<Part>,
                                         next: nat, run: WorkerRun, sent: seq<Request>,
                                         entries: map<string, ManifestEntry>)
    requires IsRestart(prefix, worker, found, former, next, run, sent) && Produced(run.events) == []
    requires worker in Entries(sent) && worker in entries && entries[worker] == Entries(sent)[worker]
    ensures forall range | range in RangesOf(CountsOf(entries)) :: range.partitionKey != worker
  {
    RunsEndInStep(run.config, run.events);
    OneRangeEach(CountsOf(entries), Lex.Sorted(CountsOf(entries).Keys));
  }

  /** And then every document of the earlier run is lost, without any error. */
  lemma AcceptedRestartLosesEverything(b: Bucket, parse: Parser, prefix: string, found: map<string, Bytes>,
                                       former: seq<Part>, next: nat, run: WorkerRun, sent: seq<Request>,
                                       range: PartitionDocIdRange)
    requires IsRestart(prefix, range.partitionKey, found, former, next, run, sent)
    requires b == Bucket(found + Puts(sent), {})
    requires Readable(parse, LinesOf(former)) && Readable(parse, Produced(run.events))
    requires range.endDocId == range.startDocId + |Produced(run.events)|
    requires next <= MAX_PARTS && StateAfter(run.config, run.events).partSeq <= MAX_PARTS
    ensures PartitionIsGood(b, parse, prefix, range) ==>
              PartitionRecords(b, prefix, range.partitionKey) == Produced(run.events)
  {
    RestartIsAcceptedIff(b, parse, prefix, found, former, next, run, sent, range);
    if PartitionIsGood(b, parse, prefix, range) {
      var bound := PartitionAfterRestart(prefix, range.partitionKey, found, former, next, run, sent);
      RunsEndInStep(run.config, run.events);
      OverwrittenIsReadable(parse, former, PartsOf(run));
      PartitionIsWhatWasProduced(b, parse, prefix, range.partitionKey, Overwritten(former, PartsOf(run)));
      ReplacedLinesAreGone(former, PartsOf(run), bound);
    }
  }
}
