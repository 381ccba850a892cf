/**
 What the indexing pipeline makes of the partitions that extract workers have left. A name that goes on after another
 one as the keys of its parts do intrudes on it: what such a worker writes is listed among the other's parts
 (src/beacon_scale_infra/extract/partitioning.py and src/beacon_scale_infra/index/pipeline.py).
 */
module ExtractedCorpus {
  import opened Wrappers
  import opened Collections
  import opened CorpusLines
  import opened CorpusCatalog
  import opened ExtractWorker
  import opened IndexPipeline
  import opened DocIdRanges
  import opened InvertedIndex
  import opened CorpusHandover
  import Decimal
  import Lex

  // --------------------------------------------------------------------------- whose key a document part has

  lemma NumbersHaveNoSlash(partSeq: nat)
    ensures '/' !in Decimal.Padded(partSeq, 6) + SUFFIX
  {
  }

  /** After a name that intrudes there is one more slash than a document part's own key has. */
  lemma SlashBehind(prefix: string, worker: string, other: string, stem: string, n: nat)
    requires Intrudes(other, worker) && stem != "" && stem[0] == '/'
    ensures DocumentPartKey(prefix, worker, n) != prefix + "/partition=" + other + stem
  {
    var k, front, number := DocumentPartKey(prefix, worker, n), PartPrefix(prefix, worker),
                            Decimal.Padded(n, 6) + SUFFIX;
    var i := |prefix + "/partition=" + other|;
    if k == prefix + "/partition=" + other + stem {
      assert k[i] == '/' && k == front + number;
      assert |front| <= i;
      assert number[i - |front|] == '/';
      NumbersHaveNoSlash(n);
      assert false;
    }
  }

  lemma KeysHaveStems(prefix: string, worker: string, n: nat)
    ensures DocumentPartKey(prefix, worker, n)
            == prefix + "/partition=" + worker + ("/documents-" + (Decimal.Padded(n, 6) + SUFFIX))
    ensures DiscardedPartKey(prefix, worker, n)
            == prefix + "/partition=" + worker + ("/discarded-" + Decimal.Padded(n, 6) + SUFFIX)
  {
  }

  /** Nobody else writes to the key of a worker's document part, whatever its name. */
  lemma DocumentKeyHasOneOwner(prefix: string, worker: string, other: string, n: nat)
    requires OwnKey(prefix, other, DocumentPartKey(prefix, worker, n))
    ensures other == worker
  {
    var k := DocumentPartKey(prefix, worker, n);
    if other != worker {
      if !Intrudes(other, worker) {
        OthersKeysStayOut(prefix, worker, other, k);
      } else {
        var m: nat :| k == DocumentPartKey(prefix, other, m) || k == DiscardedPartKey(prefix, other, m);
        KeysHaveStems(prefix, other, m);
        SlashBehind(prefix, worker, other, "/documents-" + (Decimal.Padded(m, 6) + SUFFIX), n);
        SlashBehind(prefix, worker, other, "/discarded-" + Decimal.Padded(m, 6) + SUFFIX, n);
      }
    }
  }

  /** An object that is listed among the parts of `worker` is its own document part, or comes from an intruder. */
  lemma ListedKeysComeFromIntruders(prefix: string, worker: string, other: string, k: string)
    requires OwnKey(prefix, other, k) && StartsWith(k, PartPrefix(prefix, worker))
    ensures Intrudes(other, worker) || (other == worker && exists n: nat :: k == DocumentPartKey(prefix, worker, n))
  {
    var n: nat :| k == DocumentPartKey(prefix, other, n) || k == DiscardedPartKey(prefix, other, n);
    DocumentKeyLiesInPartitionIff(prefix, worker, other, n);
    DiscardedKeyLiesInPartitionIff(prefix, worker, other, n);
  }

  lemma NobodyIntrudesOnItself(worker: string)
    ensures !Intrudes(worker, worker)
  {
  }

  // -------------------------------------------------------------------------------- what a run has written

  /** It has flushed something, and so written a part of documents or of discarded pages. */
  predicate HasWritten(run: WorkerRun) {
    StateAfter(run.config, run.events).partSeq > 0
  }

  /** A part has lines, each of them a record as `json.dumps` writes it. */
  ghost predicate HoldsLines(body: Bytes) {
    exists lines :: lines != [] && AllClean(lines) && body == Body(lines)
  }

  ghost predicate CleanPages(events: seq<Event>) {
    forall e | e in events && e.Job? && !e.page.Missing? :: IsClean(e.page.line)
  }

  lemma {:induction false} BuffersAreClean(c: WorkerConfig, events: seq<Event>)
    requires CleanPages(events)
    ensures AllClean(StateAfter(c, events).documentBuffer) && AllClean(StateAfter(c, events).discardedBuffer)
  {
    if events != [] {
      LastSplit(events);
      BuffersAreClean(c, events[..|events| - 1]);
    }
  }

  ghost predicate PutsHoldLines(sent: seq<Request>) {
    forall r | r in sent && r.PutObject? :: HoldsLines(r.body)
  }

  lemma FlushHoldsLines(c: WorkerConfig, s: State)
    requires AllClean(s.documentBuffer) && AllClean(s.discardedBuffer)
    ensures PutsHoldLines(FlushRequests(c, s))
  {
  }

  lemma {:induction false} WhatIsSentHoldsLines(c: WorkerConfig, events: seq<Event>)
    requires CleanPages(events)
    ensures PutsHoldLines(Sent(c, events))
  {
    if events != [] {
      var init, e := events[..|events| - 1], events[|events| - 1];
      LastSplit(events);
      WhatIsSentHoldsLines(c, init);
      BuffersAreClean(c, init);
      FlushHoldsLines(c, Before(StateAfter(c, init), e));
    }
  }

  ghost predicate SendsAnObject(sent: seq<Request>) {
    exists r :: r in sent && r.PutObject?
  }

  lemma FlushSends(c: WorkerConfig, s: State)
    ensures Flushed(s).partSeq == s.partSeq ==> FlushRequests(c, s) == []
    ensures Flushed(s).partSeq > s.partSeq ==> SendsAnObject(FlushRequests(c, s))
    ensures Flushed(s).partSeq >= s.partSeq
  {
    var requests := FlushRequests(c, s);
    if s.documentBuffer != [] {
      assert requests[0] in requests && requests[0].PutObject?;
    } else if s.discardedBuffer != [] {
      assert requests[0] in requests && requests[0].PutObject?;
    }
  }

  /** A worker that has written no part has sent nothing at all. */
  lemma {:induction false} WritersSend(c: WorkerConfig, events: seq<Event>)
    ensures StateAfter(c, events).partSeq == 0 ==> Sent(c, events) == []
    ensures StateAfter(c, events).partSeq > 0 ==> SendsAnObject(Sent(c, events))
  {
    if events != [] {
      var init, e := events[..|events| - 1], events[|events| - 1];
      WritersSend(c, init);
      var before, now := Sent(c, init), RequestsAt(c, StateAfter(c, init), e);
      FlushSends(c, Before(StateAfter(c, init), e));
      assert forall r :: r in before + now <==> r in before || r in now;
    }
  }

  // ------------------------------------------------------------------------- one worker among any others

  lemma {:induction false} OfKnows(log: seq<Tagged>, i: nat)
    requires i < |log|
    ensures log[i].request in Of(log, log[i].worker)
  {
    if i < |log| - 1 { OfKnows(log[..|log| - 1], i); }
  }

  lemma {:induction false} OfIsFromTheLog(log: seq<Tagged>, worker: string, r: Request)
    requires r in Of(log, worker)
    ensures exists i :: 0 <= i < |log| && log[i] == Tagged(worker, r)
  {
    var init, last := log[..|log| - 1], log[|log| - 1];
    if last != Tagged(worker, r) {
      OfIsFromTheLog(init, worker, r);
      var i :| 0 <= i < |init| && init[i] == Tagged(worker, r);
      assert log[i] == Tagged(worker, r);
    }
  }

  ghost predicate OnlyThisWrites(log: seq<Tagged>, worker: string, k: string) {
    forall i | 0 <= i < |log| && log[i].request.PutObject? && log[i].request.key == k :: log[i].worker == worker
  }

  /** What nobody else writes to is as the worker itself left it. */
  lemma {:induction false} OwnObjectStands(log: seq<Tagged>, worker: string, k: string)
    requires OnlyThisWrites(log, worker, k)
    ensures k in Puts(Untagged(log)) <==> k in Puts(Of(log, worker))
    ensures k in Puts(Untagged(log)) ==> Puts(Untagged(log))[k] == Puts(Of(log, worker))[k]
  {
    if log != [] {
      var init, last := log[..|log| - 1], log[|log| - 1];
      assert OnlyThisWrites(init, worker, k);
      OwnObjectStands(init, worker, k);
      assert Untagged(log) == Untagged(init) + [last.request];
      OneMoreRequest(Untagged(init), last.request);
      OneMoreRequest(Of(init, worker), last.request);
      if last.worker != worker { assert Of(log, worker) == Of(init, worker); }
    }
  }

  lemma {:induction false} OwnEntryStands(prefix: string, log: seq<Tagged>, worker: string)
    requires forall i | 0 <= i < |log| :: OwnRequest(prefix, log[i].worker, log[i].request)
    ensures worker in Entries(Untagged(log)) <==> worker in Entries(Of(log, worker))
    ensures worker in Entries(Untagged(log)) ==> Entries(Untagged(log))[worker] == Entries(Of(log, worker))[worker]
  {
    if log != [] {
      var init, last := log[..|log| - 1], log[|log| - 1];
      OwnEntryStands(prefix, init, worker);
      assert Untagged(log) == Untagged(init) + [last.request];
      OneMoreRequest(Untagged(init), last.request);
      OneMoreRequest(Of(init, worker), last.request);
      if last.worker != worker { assert Of(log, worker) == Of(init, worker); }
    }
  }

  lemma {:induction false} PutsAreThere(log: seq<Request>, i: nat)
    requires i < |log| && log[i].PutObject?
    ensures log[i].key in Puts(log)
  {
    if i < |log| - 1 { PutsAreThere(log[..|log| - 1], i); }
  }

  lemma {:induction false} LastPutHoldsLines(log: seq<Request>, k: string)
    requires k in Puts(log) && forall i | 0 <= i < |log| && log[i].PutObject? && log[i].key == k ::
               HoldsLines(log[i].body)
    ensures HoldsLines(Puts(log)[k])
  {
    var last := log[|log| - 1];
    if !(last.PutObject? && last.key == k) { LastPutHoldsLines(log[..|log| - 1], k); }
  }

  // ------------------------------------------------------------------------- when a partition does not add up

  /** Some worker whose name intrudes on this one has written a part. */
  ghost predicate IsIntrudedUpon(runs: map<string, WorkerRun>, w: string) {
    exists v :: v in runs && Intrudes(v, w) && HasWritten(runs[v])
  }

  lemma UndisturbedUnlessIntrudedUpon(prefix: string, runs: map<string, WorkerRun>, log: seq<Tagged>, w: string)
    requires IsExtraction(prefix, runs, log) && !IsIntrudedUpon(runs, w)
    ensures IsUndisturbed(log, w)
  {
    forall i | 0 <= i < |log| && log[i].worker != w ensures !Intrudes(log[i].worker, w) {
      var v := log[i].worker;
      OfKnows(log, i);
      WritersSend(runs[v].config, runs[v].events);
      assert HasWritten(runs[v]);
    }
  }

  /** What intruders on this name write are records. */
  ghost predicate IntrudersWriteRecords(runs: map<string, WorkerRun>, w: string) {
    forall v | v in runs && Intrudes(v, w) :: CleanPages(runs[v].events)
  }

  lemma RequestsOfRunsHoldLines(prefix: string, runs: map<string, WorkerRun>, log: seq<Tagged>, i: nat)
    requires IsExtraction(prefix, runs, log) && i < |log| && log[i].request.PutObject?
    requires CleanPages(runs[log[i].worker].events)
    ensures HoldsLines(log[i].request.body)
  {
    var run := runs[log[i].worker];
    OfKnows(log, i);
    WhatIsSentHoldsLines(run.config, run.events);
  }

  lemma WriterIsInTheLog(prefix: string, runs: map<string, WorkerRun>, log: seq<Tagged>, v: string) returns (i: nat)
    requires IsExtraction(prefix, runs, log) && v in runs && HasWritten(runs[v])
    ensures i < |log| && log[i].worker == v && log[i].request.PutObject? && OwnKey(prefix, v, log[i].request.key)
  {
    WritersSend(runs[v].config, runs[v].events);
    var r :| r in Of(log, v) && r.PutObject?;
    OfIsFromTheLog(log, v, r);
    i :| 0 <= i < |log| && log[i] == Tagged(v, r);
    EveryRequestIsOwn(prefix, runs, log);
    assert OwnRequest(prefix, log[i].worker, log[i].request);
  }

  ghost predicate IsStrange(prefix: string, w: string, k: string) {
    StartsWith(k, PartPrefix(prefix, w)) && forall n: nat :: k != DocumentPartKey(prefix, w, n)
  }

  /** Whoever has written such an object intrudes, so that it has lines. */
  lemma StrangePutHoldsLines(prefix: string, runs: map<string, WorkerRun>, log: seq<Tagged>, w: string, i: nat)
    requires IsExtraction(prefix, runs, log) && IntrudersWriteRecords(runs, w)
    requires i < |log| && log[i].request.PutObject? && IsStrange(prefix, w, log[i].request.key)
    ensures HoldsLines(log[i].request.body)
  {
    EveryRequestIsOwn(prefix, runs, log);
    assert OwnRequest(prefix, log[i].worker, log[i].request);
    ListedKeysComeFromIntruders(prefix, w, log[i].worker, log[i].request.key);
    RequestsOfRunsHoldLines(prefix, runs, log, i);
  }

  /** An intruder leaves an object that is listed, is none of the worker's own, and has lines. */
  lemma IntruderLeavesAPart(prefix: string, runs: map<string, WorkerRun>, log: seq<Tagged>, w: string)
      returns (k: string)
    requires IsExtraction(prefix, runs, log) && IsIntrudedUpon(runs, w) && IntrudersWriteRecords(runs, w)
    ensures k in Puts(Untagged(log)) && IsStrange(prefix, w, k) && HoldsLines(Puts(Untagged(log))[k])
  {
    var v :| v in runs && Intrudes(v, w) && HasWritten(runs[v]);
    var i := WriterIsInTheLog(prefix, runs, log, v);
    k := log[i].request.key;
    IntrudersKeysAreListed(prefix, w, v, k);
    PutsAreThere(Untagged(log), i);
    var all := Untagged(log);
    forall x | 0 <= x < |all| && all[x].PutObject? && all[x].key == k ensures HoldsLines(all[x].body) {
      StrangePutHoldsLines(prefix, runs, log, w, x);
    }
    LastPutHoldsLines(all, k);
  }

  lemma IntrudersKeysAreListed(prefix: string, w: string, v: string, k: string)
    requires Intrudes(v, w) && OwnKey(prefix, v, k)
    ensures IsStrange(prefix, w, k)
  {
    var n: nat :| k == DocumentPartKey(prefix, v, n) || k == DiscardedPartKey(prefix, v, n);
    DocumentKeyLiesInPartitionIff(prefix, w, v, n);
    DiscardedKeyLiesInPartitionIff(prefix, w, v, n);
    NobodyIntrudesOnItself(w);
    if m: nat :| k == DocumentPartKey(prefix, w, m) { DocumentKeyHasOneOwner(prefix, w, v, m); }
  }

  lemma OwnPartsStand(prefix: string, runs: map<string, WorkerRun>, log: seq<Tagged>, w: string, n: nat)
    requires IsExtraction(prefix, runs, log)
    ensures var k := DocumentPartKey(prefix, w, n);
            && (k in Puts(Untagged(log)) <==> k in Puts(Of(log, w)))
            && (k in Puts(Untagged(log)) ==> Puts(Untagged(log))[k] == Puts(Of(log, w))[k])
  {
    var k := DocumentPartKey(prefix, w, n);
    EveryRequestIsOwn(prefix, runs, log);
    forall i | 0 <= i < |log| && log[i].request.PutObject? && log[i].request.key == k ensures log[i].worker == w {
      DocumentKeyHasOneOwner(prefix, w, log[i].worker, n);
    }
    OwnObjectStands(log, w, k);
  }

  lemma {:induction false} SameTotal<T>(f: T -> nat, g: T -> nat, s: seq<T>)
    requires forall x | x in s :: f(x) == g(x)
    ensures Total(f, s) == Total(g, s)
  {
    if s != [] { SameTotal(f, g, s[..|s| - 1]); }
  }

  /** What the worker has sent itself, alone in a bucket. */
  function Alone(log: seq<Tagged>, w: string): Bucket {
    Bucket(Puts(Of(log, w)), {})
  }

  lemma PartsAloneCount(parse: Parser, prefix: string, runs: map<string, WorkerRun>, log: seq<Tagged>, w: string)
    requires IsExtraction(prefix, runs, log) && w in runs && Readable(parse, Produced(runs[w].events))
    ensures var keys := KeysOf(prefix, w, PartsOf(runs[w]));
            && AllDifferent(keys) && (forall k | k in keys :: k in Puts(Of(log, w)))
            && Total(LineCount(Alone(log, w)), keys) == |Produced(runs[w].events)|
  {
    var parts, b := PartsOf(runs[w]), Alone(log, w);
    var next, keys := StateAfter(runs[w].config, runs[w].events).partSeq, KeysOf(prefix, w, parts);
    RunsEndInStep(runs[w].config, runs[w].events);
    ListedKeysAreThoseOfTheParts(b, prefix, w, parts, next);
    PartsCount(b, parse, prefix, w, parts, next);
    PartFilesAreThere(prefix, w, parts);
    forall k | k in keys ensures k in b.objects { assert k in Within(b.objects, PartPrefix(prefix, w)); }
  }

  /** The worker's own parts have as many lines as it produced documents, whoever else has written. */
  lemma OwnPartsCount(b: Bucket, parse: Parser, prefix: string, found: map<string, Bytes>, runs: map<string, WorkerRun>,
                      log: seq<Tagged>, w: string)
    requires IsExtraction(prefix, runs, log) && b.objects == found + Puts(Untagged(log)) && w in runs
    requires Readable(parse, Produced(runs[w].events))
    ensures var keys := KeysOf(prefix, w, PartsOf(runs[w]));
            && AllDifferent(keys) && (forall k | k in keys :: k in Puts(Untagged(log)))
            && Total(LineCount(b), keys) == |Produced(runs[w].events)|
  {
    var keys := KeysOf(prefix, w, PartsOf(runs[w]));
    PartsAloneCount(parse, prefix, runs, log, w);
    forall k | k in keys ensures k in Puts(Untagged(log)) && RawOf(Alone(log, w), k) == RawOf(b, k) {
      var i :| 0 <= i < |keys| && keys[i] == k;
      OwnPartsStand(prefix, runs, log, w, PartsOf(runs[w])[i].partSeq);
    }
    SameTotal(LineCount(Alone(log, w)), LineCount(b), keys);
  }

  lemma MoreThanItsOwn(b: Bucket, prefix: string, w: string, keys: seq<string>, k: string)
    requires AllDifferent(keys) && k !in keys && LineCount(b)(k) > 0
    requires forall x | x in keys + [k] :: x in b.objects && StartsWith(x, PartPrefix(prefix, w))
    ensures |PartitionRecords(b, prefix, w)| > Total(LineCount(b), keys)
  {
    var listed := DocumentPartKeys(b, prefix, w);
    Lex.SortedIsSorted(set x | x in b.objects && StartsWith(x, PartPrefix(prefix, w)));
    TotalOfPart(LineCount(b), keys + [k], listed);
    assert (keys + [k])[..|keys|] == keys && listed[..|listed|] == listed;
    RecordsCount(b, listed, |listed|);
  }

  /** So with an intruder's part there are too many. */
  lemma IntruderAddsLines(b: Bucket, parse: Parser, prefix: string, found: map<string, Bytes>,
                          runs: map<string, WorkerRun>, log: seq<Tagged>, w: string)
    requires IsExtraction(prefix, runs, log) && b.objects == found + Puts(Untagged(log)) && w in runs
    requires Readable(parse, Produced(runs[w].events)) && IsIntrudedUpon(runs, w) && IntrudersWriteRecords(runs, w)
    ensures |PartitionRecords(b, prefix, w)| > |Produced(runs[w].events)|
  {
    var keys := KeysOf(prefix, w, PartsOf(runs[w]));
    OwnPartsCount(b, parse, prefix, found, runs, log, w);
    var k := IntruderLeavesAPart(prefix, runs, log, w);
    HeldLinesAreThere(b, k);
    forall x | x in keys ensures StartsWith(x, PartPrefix(prefix, w)) && x != k {
      var i :| 0 <= i < |keys| && keys[i] == x;
      assert x == DocumentPartKey(prefix, w, PartsOf(runs[w])[i].partSeq);
    }
    MoreThanItsOwn(b, prefix, w, keys, k);
  }

  lemma HeldLinesAreThere(b: Bucket, k: string)
    requires k in b.objects && HoldsLines(b.objects[k])
    ensures LineCount(b)(k) > 0
  {
    var lines :| lines != [] && AllClean(lines) && b.objects[k] == Body(lines);
    BodyHoldsTheLines(lines);
  }

  /** The manifest counts what each worker produced. */
  lemma EntriesCount(prefix: string, runs: map<string, WorkerRun>, log: seq<Tagged>, w: string)
    requires IsExtraction(prefix, runs, log) && w in runs
    ensures var entries := Entries(Untagged(log));
            && (w in entries ==> entries[w].documentCount == |Produced(runs[w].events)|)
            && (w !in entries ==> Produced(runs[w].events) == [])
  {
    EveryRequestIsOwn(prefix, runs, log);
    OwnEntryStands(prefix, log, w);
    RunsEndInStep(runs[w].config, runs[w].events);
  }

  /** Only workers that produced something are looked at. */
  lemma RangesCount(prefix: string, runs: map<string, WorkerRun>, log: seq<Tagged>, range: PartitionDocIdRange)
    requires IsExtraction(prefix, runs, log) && range in RangesOf(CountsOf(Entries(Untagged(log))))
    ensures range.partitionKey in runs && Produced(runs[range.partitionKey].events) != []
    ensures range.endDocId == range.startDocId + |Produced(runs[range.partitionKey].events)|
  {
    var manifest, w := CountsOf(Entries(Untagged(log))), range.partitionKey;
    EveryRequestIsOwn(prefix, runs, log);
    OnlyWorkersAreListed(prefix, log, runs.Keys);
    Lex.SortedIsSorted(manifest.Keys);
    OneRangeEach(manifest, Lex.Sorted(manifest.Keys));
    EntriesCount(prefix, runs, log, w);
  }

  lemma ProducersAreCounted(prefix: string, runs: map<string, WorkerRun>, log: seq<Tagged>, w: string)
    requires IsExtraction(prefix, runs, log) && w in runs && Produced(runs[w].events) != []
    ensures exists range :: range in RangesOf(CountsOf(Entries(Untagged(log)))) && range.partitionKey == w
  {
    var manifest := CountsOf(Entries(Untagged(log)));
    EntriesCount(prefix, runs, log, w);
    Lex.SortedIsSorted(manifest.Keys);
    OneRangeEach(manifest, Lex.Sorted(manifest.Keys));
    assert w in Lex.Sorted(manifest.Keys) && SizeOf(manifest, w) > 0;
  }

  /**
   Of any set of workers that have come to their ends, whatever their names and the order of their requests: the check
   of the manifest against the partition fires for a worker exactly if another one with a name that intrudes on its
   name has written a part.
   */
  lemma MismatchFiresIff(b: Bucket, parse: Parser, prefix: string, found: map<string, Bytes>,
                         runs: map<string, WorkerRun>, log: seq<Tagged>, range: PartitionDocIdRange)
    requires IsExtraction(prefix, runs, log) && b == Bucket(found + Puts(Untagged(log)), {})
    requires range in RangesOf(CountsOf(Entries(Untagged(log))))
    requires var w := range.partitionKey;
             Within(found, PartPrefix(prefix, w)) == map[] && IntrudersWriteRecords(runs, w)
             && (w in runs ==> Readable(parse, Produced(runs[w].events)))
    ensures !PartitionIsGood(b, parse, prefix, range) <==> IsIntrudedUpon(runs, range.partitionKey)
  {
    var w := range.partitionKey;
    RangesCount(prefix, runs, log, range);
    if IsIntrudedUpon(runs, w) {
      IntruderAddsLines(b, parse, prefix, found, runs, log, w);
    } else {
      UndisturbedUnlessIntrudedUpon(prefix, runs, log, w);
      EveryPartitionIsLeftBehind(prefix, found, runs, log, w);
      PartitionIsGoodIff(b, parse, prefix, PartsOf(runs[w]), StateAfter(runs[w].config, runs[w].events).partSeq, range);
    }
  }

  /** Names without a slash cannot intrude, so that for workers with such names it never fires. */
  lemma MismatchCannotFire(b: Bucket, parse: Parser, prefix: string, found: map<string, Bytes>,
                           runs: map<string, WorkerRun>, log: seq<Tagged>, range: PartitionDocIdRange)
    requires IsExtraction(prefix, runs, log) && b == Bucket(found + Puts(Untagged(log)), {})
    requires range in RangesOf(CountsOf(Entries(Untagged(log)))) && forall v | v in runs :: '/' !in v
    requires var w := range.partitionKey;
             Within(found, PartPrefix(prefix, w)) == map[] && (w in runs ==> Readable(parse, Produced(runs[w].events)))
    ensures PartitionIsGood(b, parse, prefix, range)
  {
    forall v | v in runs ensures !Intrudes(v, range.partitionKey) { PlainNamesDoNotIntrude(range.partitionKey, v); }
    MismatchFiresIff(b, parse, prefix, found, runs, log, range);
  }

  // ------------------------------------------------------------------------------ indexing what they have left

  /** The documents of these workers, one worker after the other. */
  function ProducedBy(runs: map<string, WorkerRun>, names: seq<string>): seq<Bytes> {
    if names == [] then []
    else
      var w := names[|names| - 1];
      ProducedBy(runs, names[..|names| - 1]) + if w in runs then Produced(runs[w].events) else []
  }

  ghost predicate NoMoreThanAMillionParts(runs: map<string, WorkerRun>) {
    forall w | w in runs :: StateAfter(runs[w].config, runs[w].events).partSeq <= MAX_PARTS
  }

  lemma {:induction false} RecordsAreWhatWasProduced(b: Bucket, prefix: string, runs: map<string, WorkerRun>,
                                                     manifest: Manifest, names: seq<string>)
    requires forall w | w in names :: w in runs && w in manifest && manifest[w] == |Produced(runs[w].events)|
    requires forall w | w in names && manifest[w] > 0 :: PartitionRecords(b, prefix, w) == Produced(runs[w].events)
    ensures AllRecords(b, prefix, RangesFor(manifest, names)) == ProducedBy(runs, names)
  {
    if names != [] {
      var init, w := names[..|names| - 1], names[|names| - 1];
      assert names == init + [w];
      RecordsAreWhatWasProduced(b, prefix, runs, manifest, init);
      var before, last := RangesFor(manifest, init), RangeAt(w, Sizes(manifest, init), SizeOf(manifest, w));
      if manifest[w] > 0 {
        assert (before + last)[..|before|] == before;
      } else {
        assert before + last == before;
      }
    }
  }

  /** No worker that has produced documents is intruded upon. */
  ghost predicate NobodyIsDisturbed(runs: map<string, WorkerRun>) {
    forall w | w in runs && Produced(runs[w].events) != [] :: !IsIntrudedUpon(runs, w)
  }

  /** The store had none of their partitions before, and they write records. */
  ghost predicate StartsAfresh(parse: Parser, prefix: string, found: map<string, Bytes>, runs: map<string, WorkerRun>) {
    forall w | w in runs ::
      && Within(found, PartPrefix(prefix, w)) == map[] && Readable(parse, Produced(runs[w].events))
      && IntrudersWriteRecords(runs, w)
  }

  lemma RecordsOfOneWorker(b: Bucket, parse: Parser, prefix: string, found: map<string, Bytes>,
                           runs: map<string, WorkerRun>, log: seq<Tagged>, w: string)
    requires IsExtraction(prefix, runs, log) && b.objects == found + Puts(Untagged(log))
    requires NoMoreThanAMillionParts(runs)
    requires StartsAfresh(parse, prefix, found, runs) && w in runs && !IsIntrudedUpon(runs, w)
    ensures PartitionRecords(b, prefix, w) == Produced(runs[w].events)
  {
    UndisturbedUnlessIntrudedUpon(prefix, runs, log, w);
    EveryPartitionIsLeftBehind(prefix, found, runs, log, w);
    PartitionIsWhatWasProduced(b, parse, prefix, w, PartsOf(runs[w]));
  }

  lemma EveryRecordIsInOrder(b: Bucket, parse: Parser, prefix: string, found: map<string, Bytes>,
                             runs: map<string, WorkerRun>, log: seq<Tagged>)
    requires IsExtraction(prefix, runs, log) && b.objects == found + Puts(Untagged(log))
    requires NoMoreThanAMillionParts(runs)
    requires StartsAfresh(parse, prefix, found, runs) && NobodyIsDisturbed(runs)
    ensures var manifest := CountsOf(Entries(Untagged(log)));
            AllRecords(b, prefix, RangesOf(manifest)) == ProducedBy(runs, Lex.Sorted(manifest.Keys))
  {
    var manifest := CountsOf(Entries(Untagged(log)));
    EveryRequestIsOwn(prefix, runs, log);
    OnlyWorkersAreListed(prefix, log, runs.Keys);
    Lex.SortedIsSorted(manifest.Keys);
    var names := Lex.Sorted(manifest.Keys);
    forall w | w in names
      ensures w in runs && w in manifest && manifest[w] == |Produced(runs[w].events)|
      ensures manifest[w] > 0 ==> PartitionRecords(b, prefix, w) == Produced(runs[w].events)
    {
      EntriesCount(prefix, runs, log, w);
      if manifest[w] > 0 { RecordsOfOneWorker(b, parse, prefix, found, runs, log, w); }
    }
    RecordsAreWhatWasProduced(b, prefix, runs, manifest, names);
  }

  lemma EveryPartitionIsGoodIff(b: Bucket, parse: Parser, prefix: string, found: map<string, Bytes>,
                                runs: map<string, WorkerRun>, log: seq<Tagged>)
    requires IsExtraction(prefix, runs, log) && b == Bucket(found + Puts(Untagged(log)), {})
    requires StartsAfresh(parse, prefix, found, runs)
    ensures (forall range | range in RangesOf(CountsOf(Entries(Untagged(log)))) ::
              PartitionIsGood(b, parse, prefix, range))
            <==> NobodyIsDisturbed(runs)
  {
    var ranges := RangesOf(CountsOf(Entries(Untagged(log))));
    forall range | range in ranges
      ensures PartitionIsGood(b, parse, prefix, range) <==> !IsIntrudedUpon(runs, range.partitionKey)
      ensures range.partitionKey in runs && Produced(runs[range.partitionKey].events) != []
    {
      RangesCount(prefix, runs, log, range);
      MismatchFiresIff(b, parse, prefix, found, runs, log, range);
    }
    forall w | w in runs && Produced(runs[w].events) != []
      ensures exists range :: range in ranges && range.partitionKey == w
    {
      ProducersAreCounted(prefix, runs, log, w);
    }
  }

  /**
   Indexing what any set of workers has extracted succeeds exactly if none that produced documents is intruded upon.
   Then, with no more than a million parts each, document `id` of the index is document `id` of all that they produced,
   by the names of the workers.
   */
  method IndexWhatWasExtracted(store: ExtractStore, parse: Parser, analyse: Analyser, prefix: string,
                               ghost runs: map<string, WorkerRun>, ghost log: seq<Tagged>)
      returns (r: Result<Published>)
    requires store.Valid() && store.log == Untagged(log) && store.foundManifest == map[]
    requires IsExtraction(prefix, runs, log)
    requires StartsAfresh(parse, prefix, store.found, runs)
    ensures r.Success? <==> NobodyIsDisturbed(runs)
    ensures r.Success? && NoMoreThanAMillionParts(runs) ==>
              IsIndexOf(Bucket(store.objects, {}), parse, analyse, r.value,
                        ProducedBy(runs, Lex.Sorted(store.manifest.Keys)))
  {
    var b := Bucket(store.objects, {});
    assert store.manifest == Entries(store.log);
    EveryPartitionIsGoodIff(b, parse, prefix, store.found, runs, log);
    if NobodyIsDisturbed(runs) && NoMoreThanAMillionParts(runs) {
      EveryRecordIsInOrder(b, parse, prefix, store.found, runs, log);
    }
    assert CountsOf(store.manifest).Keys == store.manifest.Keys;
    r := IndexPipeline.Run(b, parse, analyse, prefix, CountsOf(store.manifest));
  }
}
