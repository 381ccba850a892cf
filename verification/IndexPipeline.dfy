/**
 One pass of distributed indexing: every partition is copied, checked against the manifest, indexed by itself and
 appended to the corpus, and the partial indexes are merged (src/beacon_scale_infra/index/pipeline.py).
 */
module IndexPipeline {
  import opened Wrappers
  import opened Collections
  import opened CorpusLines
  import opened CorpusCatalog
  import opened InvertedIndex
  import opened DocIdRanges
  import Bisect
  import IndexMerge
  import Lex

  /** What `IndexBuilder` makes of the text of one record. */
  type Analyser = Bytes -> Analysed

  datatype Published = Published(corpus: Bytes, parts: seq<CorpusPartEntry>, lastCrawledAt: Option<string>,
                                 index: Index)

  function AnalyseAll(analyse: Analyser, lines: seq<Bytes>): seq<Analysed> {
    seq(|lines|, i requires 0 <= i < |lines| => analyse(lines[i]))
  }

  /** The records of one partition, in the order of its part files. */
  ghost function PartitionRecords(b: Bucket, prefix: string, partitionKey: string): seq<Bytes> {
    RecordsOf(b, DocumentPartKeys(b, prefix, partitionKey))
  }

  /** The records of the first partitions, in the order of their ranges: document ids count these. */
  ghost function AllRecords(b: Bucket, prefix: string, ranges: seq<PartitionDocIdRange>): seq<Bytes> {
    if ranges == [] then []
    else AllRecords(b, prefix, ranges[..|ranges| - 1]) + PartitionRecords(b, prefix, ranges[|ranges| - 1].partitionKey)
  }

  ghost function AnalysedPartitions(b: Bucket, analyse: Analyser, prefix: string, ranges: seq<PartitionDocIdRange>)
      : seq<seq<Analysed>> {
    if ranges == [] then []
    else AnalysedPartitions(b, analyse, prefix, ranges[..|ranges| - 1])
         + [AnalyseAll(analyse, PartitionRecords(b, prefix, ranges[|ranges| - 1].partitionKey))]
  }

  /** Its parts can be read and parsed, and they hold as many documents as the manifest says. */
  ghost predicate PartitionIsGood(b: Bucket, parse: Parser, prefix: string, r: PartitionDocIdRange) {
    && (forall k | k in DocumentPartKeys(b, prefix, r.partitionKey) :: PartIsGood(b, parse, k))
    && r.startDocId + |PartitionRecords(b, prefix, r.partitionKey)| == r.endDocId
  }

  function CountOf(parts: seq<CorpusPartEntry>): nat {
    Bisect.Sum(Counts(parts))
  }

  lemma {:induction false} EntriesCountTheRecords(b: Bucket, partitionKey: string, keys: seq<string>, n: nat,
                                                  start: nat)
    requires n <= |keys|
    ensures CountOf(EntriesUpTo(b, partitionKey, keys, n, start)) == |RecordsUpTo(b, keys, n)|
  {
    if n > 0 {
      EntriesCountTheRecords(b, partitionKey, keys, n - 1, start);
      var before, entry := EntriesUpTo(b, partitionKey, keys, n - 1, start),
                           EntryAt(b, partitionKey, keys, n - 1, start);
      assert Counts(before + [entry]) == Counts(before) + [entry.documentCount];
      Bisect.ContiguousSum(Counts(before), entry.documentCount);
    }
  }

  /** As many documents come out as the parts of the partition have records. */
  lemma MaterializedCounts(b: Bucket, parse: Parser, partitionKey: string, keys: seq<string>, start: nat)
    ensures var m := Materialized(b, parse, partitionKey, keys, start);
            CountOf(m.parts) == |RecordsOf(b, keys)| && DocumentLines(m.content) == RecordsOf(b, keys)
  {
    EntriesCountTheRecords(b, partitionKey, keys, |keys|, start);
    ContentHoldsTheRecords(b, keys, |keys|);
  }

  method BuildIndexFromMaterializedPartition(content: Bytes, analyse: Analyser, offset: int) returns (r: Result<Index>)
    ensures r.Success? <==> offset >= 0
    ensures r.Success? ==> r.value == BuildFrom(AnalyseAll(analyse, DocumentLines(content)), offset)
  {
    RemapIsBuildFrom(AnalyseAll(analyse, DocumentLines(content)), offset);
    r := RemapIndexToGlobalDocIds(Build(AnalyseAll(analyse, DocumentLines(content))), offset);
  }

  method IndexPartition(b: Bucket, parse: Parser, analyse: Analyser, prefix: string, range: PartitionDocIdRange)
      returns (r: Result<(Materialization, Index)>)
    ensures r.Success? <==> PartitionIsGood(b, parse, prefix, range)
    ensures var key, records := range.partitionKey, PartitionRecords(b, prefix, range.partitionKey);
            r.Success? ==>
              && r.value.0 == Materialized(b, parse, key, DocumentPartKeys(b, prefix, key), range.startDocId)
              && r.value.1 == BuildFrom(AnalyseAll(analyse, records), range.startDocId)
  {
    ghost var keys := DocumentPartKeys(b, prefix, range.partitionKey);
    var m := MaterializePartitionWithParts(b, parse, prefix, range.partitionKey, range.startDocId);
    if m.Failure? { return Failure(m.error); }
    MaterializedCounts(b, parse, range.partitionKey, keys, range.startDocId);
    if range.startDocId + CountOf(m.value.parts) != range.endDocId { return Failure("the manifest does not match"); }
    var index := BuildIndexFromMaterializedPartition(m.value.content, analyse, range.startDocId);
    return Success((m.value, index.value));
  }

  method KeepNonEmpty(parts: seq<CorpusPartEntry>) returns (kept: seq<CorpusPartEntry>)
    ensures kept == NonEmpty(parts)
  {
    kept := [];
    for i := 0 to |parts|
      invariant kept == NonEmpty(parts[..i])
    {
      assert parts[..i + 1][..i] == parts[..i];
      kept := kept + Kept(parts[i]);
    }
    assert parts[..|parts|] == parts;
  }

  /** Every part is listed under the partition that it is said to belong to. */
  ghost predicate PartsAreNamed(b: Bucket, prefix: string, parts: seq<CorpusPartEntry>) {
    forall p | p in parts :: p.objectKey in DocumentPartKeys(b, prefix, p.partitionKey)
  }

  lemma {:induction false} EntriesAreNamed(b: Bucket, partitionKey: string, keys: seq<string>, n: nat, start: nat)
    requires n <= |keys|
    ensures forall p | p in EntriesUpTo(b, partitionKey, keys, n, start) ::
              p.partitionKey == partitionKey && p.objectKey in keys
  {
    if n > 0 { EntriesAreNamed(b, partitionKey, keys, n - 1, start); }
  }

  lemma {:induction false} NonEmptyAreParts(parts: seq<CorpusPartEntry>)
    ensures forall p | p in NonEmpty(parts) :: p in parts
  {
    if parts != [] {
      NonEmptyAreParts(parts[..|parts| - 1]);
      LastSplit(parts);
    }
  }

  lemma PartitionIsNamed(b: Bucket, parse: Parser, prefix: string, key: string, start: nat)
    ensures PartsAreNamed(b, prefix,
                          NonEmpty(Materialized(b, parse, key, DocumentPartKeys(b, prefix, key), start).parts))
  {
    var keys := DocumentPartKeys(b, prefix, key);
    EntriesAreNamed(b, key, keys, |keys|, start);
    NonEmptyAreParts(Materialized(b, parse, key, keys, start).parts);
  }

  /** What has been gathered after the partitions of `done`. */
  ghost predicate Gathered(b: Bucket, parse: Parser, analyse: Analyser, prefix: string, done: seq<PartitionDocIdRange>,
                           p: Published, partials: seq<Index>)
  {
    var all := AllRecords(b, prefix, done);
    && HoldsRecords(p.corpus, all)
    && Describes(b, p.parts, all) && PartsAreNamed(b, prefix, p.parts)
    && p.lastCrawledAt == Latest(parse, all)
    && partials == IndexMerge.PartialIndexes(AnalysedPartitions(b, analyse, prefix, done))
  }

  lemma CorpusGrows(b: Bucket, corpus: Bytes, records: seq<Bytes>, keys: seq<string>)
    requires HoldsRecords(corpus, records)
    ensures HoldsRecords(corpus + ContentUpTo(b, keys, |keys|), records + RecordsOf(b, keys))
  {
    var more := ContentUpTo(b, keys, |keys|);
    ContentHoldsTheRecords(b, keys, |keys|);
    DocumentLinesAppend(corpus, more);
    AppendingKeepsTheEnd(corpus, more);
    assert Terminated(more) == more;
  }

  lemma {:induction false} AnalysedConcat(b: Bucket, analyse: Analyser, prefix: string,
                                          ranges: seq<PartitionDocIdRange>)
    ensures IndexMerge.Concat(AnalysedPartitions(b, analyse, prefix, ranges))
            == AnalyseAll(analyse, AllRecords(b, prefix, ranges))
  {
    if ranges != [] {
      var n := |ranges| - 1;
      AnalysedConcat(b, analyse, prefix, ranges[..n]);
      var before := AnalysedPartitions(b, analyse, prefix, ranges[..n]);
      var last := PartitionRecords(b, prefix, ranges[n].partitionKey);
      AnalyseAppends(analyse, AllRecords(b, prefix, ranges[..n]), last);
      assert (before + [AnalyseAll(analyse, last)])[..|before|] == before;
    }
  }

  lemma AnalyseAppends(analyse: Analyser, a: seq<Bytes>, b: seq<Bytes>)
    ensures AnalyseAll(analyse, a + b) == AnalyseAll(analyse, a) + AnalyseAll(analyse, b)
  {
  }

  lemma PartialsGrow(b: Bucket, analyse: Analyser, prefix: string, done: seq<PartitionDocIdRange>,
                     range: PartitionDocIdRange)
    requires range.startDocId == |AllRecords(b, prefix, done)|
    ensures IndexMerge.PartialIndexes(AnalysedPartitions(b, analyse, prefix, done + [range]))
            == IndexMerge.PartialIndexes(AnalysedPartitions(b, analyse, prefix, done))
               + [BuildFrom(AnalyseAll(analyse, PartitionRecords(b, prefix, range.partitionKey)), range.startDocId)]
  {
    var before := AnalysedPartitions(b, analyse, prefix, done);
    var last := AnalyseAll(analyse, PartitionRecords(b, prefix, range.partitionKey));
    assert (done + [range])[..|done|] == done;
    assert AnalysedPartitions(b, analyse, prefix, done + [range]) == before + [last];
    assert (before + [last])[..|before|] == before;
    AnalysedConcat(b, analyse, prefix, done);
    IndexMerge.PartialIndexesSplit(before + [last]);
  }

  lemma GatheredGrows(b: Bucket, parse: Parser, analyse: Analyser, prefix: string, done: seq<PartitionDocIdRange>,
                      p: Published, partials: seq<Index>, range: PartitionDocIdRange)
    requires Gathered(b, parse, analyse, prefix, done, p, partials)
    requires range.startDocId == |AllRecords(b, prefix, done)|
    ensures var key := range.partitionKey;
            var m := Materialized(b, parse, key, DocumentPartKeys(b, prefix, key), range.startDocId);
            Gathered(b, parse, analyse, prefix, done + [range],
                     Published(p.corpus + m.content, p.parts + NonEmpty(m.parts),
                               Later(p.lastCrawledAt, m.lastFetchedAt), p.index),
                     partials + [BuildFrom(AnalyseAll(analyse, PartitionRecords(b, prefix, key)), range.startDocId)])
  {
    var key, all := range.partitionKey, AllRecords(b, prefix, done);
    var keys := DocumentPartKeys(b, prefix, key);
    assert (done + [range])[..|done|] == done;
    CorpusGrows(b, p.corpus, all, keys);
    DescribesOnePartition(b, p.parts, all, key, keys, |keys|);
    LatestAppends(parse, all, RecordsOf(b, keys));
    PartitionIsNamed(b, parse, prefix, key, range.startDocId);
    PartialsGrow(b, analyse, prefix, done, range);
  }

  ghost predicate AllGood(b: Bucket, parse: Parser, prefix: string, ranges: seq<PartitionDocIdRange>) {
    ranges != [] ==>
      AllGood(b, parse, prefix, ranges[..|ranges| - 1]) && PartitionIsGood(b, parse, prefix, ranges[|ranges| - 1])
  }

  lemma {:induction false} AllGoodMeansEach(b: Bucket, parse: Parser, prefix: string, ranges: seq<PartitionDocIdRange>)
    ensures AllGood(b, parse, prefix, ranges) <==> forall r | r in ranges :: PartitionIsGood(b, parse, prefix, r)
  {
    if ranges != [] {
      assert ranges == ranges[..|ranges| - 1] + [ranges[|ranges| - 1]];
      AllGoodMeansEach(b, parse, prefix, ranges[..|ranges| - 1]);
    }
  }

  /** With every partition good so far, the records counted so far are those of the ranges. */
  lemma {:induction false} RecordsFillTheRanges(b: Bucket, parse: Parser, prefix: string,
                                                ranges: seq<PartitionDocIdRange>, i: nat)
    requires i <= |ranges| && DocIdRanges.Valid(ranges)
    requires Bisect.Contiguous(RangeStarts(ranges), RangeSizes(ranges))
    requires AllGood(b, parse, prefix, ranges[..i])
    ensures |AllRecords(b, prefix, ranges[..i])| == Bisect.Sum(RangeSizes(ranges)[..i])
  {
    if i > 0 {
      assert ranges[..i][..i - 1] == ranges[..i - 1];
      RecordsFillTheRanges(b, parse, prefix, ranges, i - 1);
      assert RangeSizes(ranges)[..i][..i - 1] == RangeSizes(ranges)[..i - 1];
      assert PartitionIsGood(b, parse, prefix, ranges[i - 1]);
    }
  }

  /** The order in which partitions are taken, and the ids they get. */
  ghost function RangesOf(manifest: Manifest): seq<PartitionDocIdRange> {
    RangesFor(manifest, Lex.Sorted(manifest.Keys))
  }

  method GatherOne(b: Bucket, parse: Parser, analyse: Analyser, prefix: string, ghost done: seq<PartitionDocIdRange>,
                   range: PartitionDocIdRange, p: Published, partials: seq<Index>)
      returns (r: Result<(Published, seq<Index>)>)
    requires Gathered(b, parse, analyse, prefix, done, p, partials)
    requires range.startDocId == |AllRecords(b, prefix, done)|
    ensures r.Success? <==> PartitionIsGood(b, parse, prefix, range)
    ensures r.Success? ==> Gathered(b, parse, analyse, prefix, done + [range], r.value.0, r.value.1)
  {
    var one := IndexPartition(b, parse, analyse, prefix, range);
    if one.Failure? { return Failure(one.error); }
    var (m, index) := one.value;
    var kept := KeepNonEmpty(m.parts);
    GatheredGrows(b, parse, analyse, prefix, done, p, partials, range);
    return Success((Published(p.corpus + m.content, p.parts + kept, Later(p.lastCrawledAt, m.lastFetchedAt), p.index),
                    partials + [index]));
  }

  lemma RangeStartsThere(b: Bucket, parse: Parser, prefix: string, manifest: Manifest, ranges: seq<PartitionDocIdRange>,
                         done: seq<PartitionDocIdRange>)
    requires ranges == RangesOf(manifest) && |done| < |ranges| && done == ranges[..|done|]
    requires AllGood(b, parse, prefix, done)
    ensures ranges[|done|].startDocId == |AllRecords(b, prefix, done)|
    ensures done + [ranges[|done|]] == ranges[..|done| + 1]
  {
    RangesAreDense(manifest, Lex.Sorted(manifest.Keys));
    RecordsFillTheRanges(b, parse, prefix, ranges, |done|);
    StartOf(ranges, |done|);
    PrefixMore(ranges, |done|);
  }

  lemma StartOf(ranges: seq<PartitionDocIdRange>, i: nat)
    requires DocIdRanges.Valid(ranges) && Bisect.Contiguous(RangeStarts(ranges), RangeSizes(ranges)) && i < |ranges|
    ensures ranges[i].startDocId == Bisect.Sum(RangeSizes(ranges)[..i])
  {
    assert RangeStarts(ranges)[i] == Bisect.Sum(RangeSizes(ranges)[..i]);
  }

  lemma OneMoreIsGood(b: Bucket, parse: Parser, prefix: string, done: seq<PartitionDocIdRange>,
                      range: PartitionDocIdRange)
    ensures AllGood(b, parse, prefix, done + [range])
            <==> AllGood(b, parse, prefix, done) && PartitionIsGood(b, parse, prefix, range)
  {
    assert (done + [range])[..|done|] == done;
  }

  function Nothing(): Published {
    Published([], [], None, Index(map[], map[], IndexStats(0, 0, 0, 0)))
  }

  lemma NothingIsGathered(b: Bucket, parse: Parser, analyse: Analyser, prefix: string)
    ensures Gathered(b, parse, analyse, prefix, [], Nothing(), [])
  {
  }

  method GatherPartitions(b: Bucket, parse: Parser, analyse: Analyser, prefix: string, ghost manifest: Manifest,
                          ranges: seq<PartitionDocIdRange>)
      returns (r: Result<(Published, seq<Index>)>)
    requires ranges == RangesOf(manifest)
    ensures r.Success? <==> AllGood(b, parse, prefix, ranges)
    ensures r.Success? ==> Gathered(b, parse, analyse, prefix, ranges, r.value.0, r.value.1)
  {
    var p, partials := Nothing(), [];
    ghost var done: seq<PartitionDocIdRange> := [];
    NothingIsGathered(b, parse, analyse, prefix);
    for i := 0 to |ranges|
      invariant |done| == i && done == ranges[..i] && AllGood(b, parse, prefix, done)
      invariant Gathered(b, parse, analyse, prefix, done, p, partials)
    {
      RangeStartsThere(b, parse, prefix, manifest, ranges, done);
      var more := GatherOne(b, parse, analyse, prefix, done, ranges[i], p, partials);
      OneMoreIsGood(b, parse, prefix, done, ranges[i]);
      if more.Failure? {
        OneIsBad(b, parse, prefix, ranges, i);
        return more;
      }
      p, partials := more.value.0, more.value.1;
      done := done + [ranges[i]];
    }
    assert done == ranges;
    return Success((p, partials));
  }

  lemma OneIsBad(b: Bucket, parse: Parser, prefix: string, ranges: seq<PartitionDocIdRange>, i: nat)
    requires i < |ranges| && !PartitionIsGood(b, parse, prefix, ranges[i])
    ensures !AllGood(b, parse, prefix, ranges)
  {
    AllGoodMeansEach(b, parse, prefix, ranges);
  }

  /** What a run has to publish for these records. */
  ghost predicate IsIndexOf(b: Bucket, parse: Parser, analyse: Analyser, p: Published, records: seq<Bytes>) {
    && DocumentLines(p.corpus) == records
    && p.index == Build(AnalyseAll(analyse, records))
    && Describes(b, p.parts, records)
    && p.lastCrawledAt == Latest(parse, records)
  }

  /** What the index says of document `id` is what analysing this record gives. */
  ghost predicate IsIndexed(index: Index, id: nat, a: Analysed) {
    && id in index.documents && index.documents[id] == DocumentRecord(id, a.url, a.title, a.length)
    && (forall t | t in a.terms ::
          && t in index.postings
          && Posting(id, a.terms[t].termFrequency, a.terms[t].positions) in index.postings[t].postings)
    && (forall t, p | t in index.postings && p in index.postings[t].postings && p.docId == id :: t in a.terms)
  }

  /** Document `id` is record `id`, with its terms and no others, and there are no other documents. */
  ghost predicate IndexIsOfTheRecords(analyse: Analyser, index: Index, records: seq<Bytes>) {
    && (forall id: nat :: id in index.documents <==> id < |records|)
    && (forall id: nat | id < |records| :: IsIndexed(index, id, analyse(records[id])))
  }

  lemma BuiltDocumentIsIndexed(docs: seq<Analysed>, id: nat)
    requires id < |docs|
    ensures IsIndexed(Build(docs), id, docs[id])
  {
    var index, a := Build(docs), docs[id];
    forall t | t in a.terms
      ensures t in index.postings
      ensures Posting(id, a.terms[t].termFrequency, a.terms[t].positions) in index.postings[t].postings
    {
      PostingsAreOccurrences(docs, t, 0);
      assert IsOccurrence(docs, t, 0, Posting(id, a.terms[t].termFrequency, a.terms[t].positions), id);
    }
    forall t, p | t in index.postings && p in index.postings[t].postings && p.docId == id ensures t in a.terms {
      PostingsAreOccurrences(docs, t, 0);
      var i: nat :| IsOccurrence(docs, t, 0, p, i);
    }
  }

  lemma BuiltIds(docs: seq<Analysed>, id: nat)
    ensures id in Build(docs).documents <==> id < |docs|
  {
    assert id in Ids(0, |docs|) <==> id < |docs|;
  }

  lemma AllAreIndexed(analyse: Analyser, records: seq<Bytes>, docs: seq<Analysed>, index: Index)
    requires |docs| == |records| && forall i | 0 <= i < |records| :: docs[i] == analyse(records[i])
    requires forall id: nat :: id in index.documents <==> id < |docs|
    requires forall id: nat | id < |docs| :: IsIndexed(index, id, docs[id])
    ensures IndexIsOfTheRecords(analyse, index, records)
  {
  }

  lemma EveryDocumentIsIndexed(docs: seq<Analysed>, index: Index)
    requires index == Build(docs)
    ensures forall id: nat :: id in index.documents <==> id < |docs|
    ensures forall id: nat | id < |docs| :: IsIndexed(index, id, docs[id])
  {
    forall id: nat ensures id in index.documents <==> id < |docs| { BuiltIds(docs, id); }
    forall id: nat | id < |docs| ensures IsIndexed(index, id, docs[id]) { BuiltDocumentIsIndexed(docs, id); }
  }

  lemma BuildIsOfTheRecords(analyse: Analyser, records: seq<Bytes>, index: Index)
    requires index == Build(AnalyseAll(analyse, records))
    ensures IndexIsOfTheRecords(analyse, index, records)
  {
    EveryDocumentIsIndexed(AnalyseAll(analyse, records), index);
    AllAreIndexed(analyse, records, AnalyseAll(analyse, records), index);
  }

  /**
   A run succeeds exactly if every partition that the manifest counts documents for can be read and holds that many.
   Line `id` of the corpus, document `id` of the index and the catalog's answer for `id` are then the same record.
   */
  method Run(b: Bucket, parse: Parser, analyse: Analyser, prefix: string, manifest: Manifest)
      returns (r: Result<Published>)
    ensures r.Success? <==> forall range | range in RangesOf(manifest) :: PartitionIsGood(b, parse, prefix, range)
    ensures r.Success? ==>
              && IsIndexOf(b, parse, analyse, r.value, AllRecords(b, prefix, RangesOf(manifest)))
              && PartsAreNamed(b, prefix, r.value.parts)
              && IndexIsOfTheRecords(analyse, r.value.index, DocumentLines(r.value.corpus))
  {
    var ranges := ComputeDocIdRanges(manifest);
    AllGoodMeansEach(b, parse, prefix, ranges);
    var gathered := GatherPartitions(b, parse, analyse, prefix, manifest, ranges);
    if gathered.Failure? { return Failure(gathered.error); }
    var (p, partials) := gathered.value;
    IndexMerge.MapReduceIsOneBuild(AnalysedPartitions(b, analyse, prefix, ranges));
    AnalysedConcat(b, analyse, prefix, ranges);
    var merged := IndexMerge.MergePartitionIndexes(partials);
    BuildIsOfTheRecords(analyse, AllRecords(b, prefix, ranges), merged.value);
    return Success(p.(index := merged.value));
  }
}
