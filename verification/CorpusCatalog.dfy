/**
 Which part file holds which documents, found out while the parts of a partition are copied into one file
 (src/beacon_scale_infra/index/corpus_catalog.py).
 */
module CorpusCatalog {
  import opened Wrappers
  import opened Collections
  import opened CorpusLines
  import Lex
  import Bisect

  /** A record of a part file; `fetchedAt` only if it is a string that is not empty. */
  datatype Document = Document(url: string, title: string, mainText: string, fetchedAt: Option<string>)

  /** `json.loads` of one line. */
  type Parser = Bytes -> Option<Document>

  /** The objects of the corpus bucket, and those of them that cannot be read at the moment. */
  datatype Bucket = Bucket(objects: map<string, Bytes>, unreadable: set<string>)

  datatype CorpusPartEntry = CorpusPartEntry(partitionKey: string, objectKey: string, startDocId: nat,
                                             documentCount: nat)

  datatype Materialization = Materialization(parts: seq<CorpusPartEntry>, lastFetchedAt: Option<string>, content: Bytes)

  function RawOf(b: Bucket, key: string): Bytes {
    if key in b.objects then b.objects[key] else []
  }

  // ------------------------------------------------------------------------------- the latest time stamp

  function Later(a: Option<string>, b: Option<string>): Option<string> {
    if b.Some? && (a.None? || Lex.Lt(a.value, b.value)) then b else a
  }

  function StampOf(parse: Parser, line: Bytes): Option<string> {
    if parse(line).Some? then parse(line).value.fetchedAt else None
  }

  function Latest(parse: Parser, lines: seq<Bytes>): Option<string> {
    if lines == [] then None else Later(Latest(parse, lines[..|lines| - 1]), StampOf(parse, lines[|lines| - 1]))
  }

  lemma LaterIsAssociative(a: Option<string>, b: Option<string>, c: Option<string>)
    ensures Later(Later(a, b), c) == Later(a, Later(b, c))
  {
    if a.Some? && b.Some? && c.Some? {
      Lex.Total(a.value, b.value);
      Lex.Total(b.value, c.value);
      if Lex.Le(a.value, b.value) && Lex.Le(b.value, c.value) {
        Lex.Transitive(a.value, b.value, c.value);
        if a.value == c.value { Lex.Antisymmetric(a.value, b.value); }
      }
      if Lex.Le(b.value, a.value) && Lex.Le(c.value, b.value) {
        Lex.Transitive(c.value, b.value, a.value);
        if Lex.Le(a.value, c.value) { Lex.Antisymmetric(a.value, c.value); }
      }
    }
  }

  lemma LatestOneMore(parse: Parser, lines: seq<Bytes>, line: Bytes)
    ensures Latest(parse, lines + [line]) == Later(Latest(parse, lines), StampOf(parse, line))
  {
    assert (lines + [line])[..|lines|] == lines;
  }

  lemma {:induction false} LatestAppends(parse: Parser, a: seq<Bytes>, b: seq<Bytes>)
    ensures Latest(parse, a + b) == Later(Latest(parse, a), Latest(parse, b))
  {
    if b == [] {
      assert a + b == a;
    } else {
      var init, last := b[..|b| - 1], StampOf(parse, b[|b| - 1]);
      assert (a + b)[..|a + b| - 1] == a + init;
      LatestAppends(parse, a, init);
      LaterIsAssociative(Latest(parse, a), Latest(parse, init), last);
    }
  }

  /** No record is newer than the latest stamp, and some record bears it. */
  lemma {:induction false} LatestIsNewest(parse: Parser, lines: seq<Bytes>)
    ensures Latest(parse, lines).Some? ==> exists l :: l in lines && StampOf(parse, l) == Latest(parse, lines)
    ensures forall l | l in lines && StampOf(parse, l).Some? ::
              Latest(parse, lines).Some? && Lex.Le(StampOf(parse, l).value, Latest(parse, lines).value)
  {
    if lines != [] {
      var init, last := lines[..|lines| - 1], lines[|lines| - 1];
      assert lines == init + [last];
      LatestIsNewest(parse, init);
      var before, all := Latest(parse, init), Latest(parse, lines);
      forall l | l in lines && StampOf(parse, l).Some? ensures all.Some? && Lex.Le(StampOf(parse, l).value, all.value) {
        if l == last {
          if before.Some? { Lex.Total(before.value, StampOf(parse, last).value); }
          Lex.Total(StampOf(parse, last).value, StampOf(parse, last).value);
        } else if all != before {
          Lex.Transitive(StampOf(parse, l).value, before.value, all.value);
        }
      }
    }
  }

  // ----------------------------------------------------------------------------------- one part, one partition

  predicate AllParse(parse: Parser, lines: seq<Bytes>) {
    forall i | 0 <= i < |lines| :: parse(lines[i]).Some?
  }

  ghost predicate Scanned(parse: Parser, lines: seq<Bytes>, count: nat, last: Option<string>) {
    AllParse(parse, lines) && count == |lines| && last == Latest(parse, lines)
  }

  lemma ScanGoesOn(parse: Parser, lines: seq<Bytes>, line: Bytes, count: nat, last: Option<string>)
    requires Scanned(parse, lines, count, last) && parse(line).Some?
    ensures Scanned(parse, lines + [line], count + 1, Later(last, StampOf(parse, line)))
  {
    LatestOneMore(parse, lines, line);
  }

  lemma UnreadableLine(parse: Parser, lines: seq<Bytes>, i: nat)
    requires i < |lines| && Strip(lines[i]) != [] && parse(Strip(lines[i])).None?
    ensures !AllParse(parse, NonBlank(lines))
  {
    NonBlankMore(lines, i);
    NonBlankPrefix(lines, i + 1);
    assert NonBlank(lines)[|NonBlank(lines[..i])|] == Strip(lines[i]);
  }

  method ScanPartLines(raw: Bytes, parse: Parser) returns (r: Result<(nat, Option<string>)>)
    ensures r.Success? <==> AllParse(parse, DocumentLines(raw))
    ensures r.Success? ==> r.value == (|DocumentLines(raw)|, Latest(parse, DocumentLines(raw)))
  {
    var lines := SplitLines(raw);
    var lineCount, last := 0, None;
    for i := 0 to |lines|
      invariant Scanned(parse, NonBlank(lines[..i]), lineCount, last)
    {
      var line := Strip(lines[i]);
      NonBlankMore(lines, i);
      if line != [] {
        if parse(line).None? {
          UnreadableLine(parse, lines, i);
          return Failure("unreadable line");
        }
        ScanGoesOn(parse, NonBlank(lines[..i]), line, lineCount, last);
        lineCount := lineCount + 1;
        last := Later(last, StampOf(parse, line));
      }
    }
    assert lines[..|lines|] == lines;
    return Success((lineCount, last));
  }

  lemma NonBlankMore(lines: seq<Bytes>, i: nat)
    requires i < |lines|
    ensures NonBlank(lines[..i + 1]) == NonBlank(lines[..i]) + if Strip(lines[i]) == [] then [] else [Strip(lines[i])]
    ensures Strip(lines[i]) == [] ==> NonBlank(lines[..i + 1]) == NonBlank(lines[..i])
  {
    assert lines[..i + 1][..i] == lines[..i];
  }

  lemma NonBlankPrefix(lines: seq<Bytes>, i: nat)
    requires i <= |lines|
    ensures NonBlank(lines[..i]) <= NonBlank(lines)
  {
    assert lines == lines[..i] + lines[i..];
    NonBlankAppends(lines[..i], lines[i..]);
  }

  predicate StartsWith(s: string, prefix: string) {
    prefix <= s
  }

  ghost function DocumentPartKeys(b: Bucket, prefix: string, partitionKey: string): seq<string> {
    Lex.Sorted(set k | k in b.objects && StartsWith(k, PartPrefix(prefix, partitionKey)))
  }

  function PartPrefix(prefix: string, partitionKey: string): string {
    prefix + "/partition=" + partitionKey + "/documents-"
  }

  method ListDocumentPartKeys(b: Bucket, prefix: string, partitionKey: string) returns (keys: seq<string>)
    ensures keys == DocumentPartKeys(b, prefix, partitionKey)
    ensures forall k | k in keys :: k in b.objects
  {
    keys := Lex.Sort(set k | k in b.objects && StartsWith(k, PartPrefix(prefix, partitionKey)));
    Lex.SortedIsSorted(set k | k in b.objects && StartsWith(k, PartPrefix(prefix, partitionKey)));
  }

  predicate PartIsGood(b: Bucket, parse: Parser, key: string) {
    key !in b.unreadable && AllParse(parse, DocumentLines(RawOf(b, key)))
  }

  /** The records of the first `n` of these parts, one part after the other. */
  function RecordsUpTo(b: Bucket, keys: seq<string>, n: nat): seq<Bytes>
    requires n <= |keys|
  {
    if n == 0 then [] else RecordsUpTo(b, keys, n - 1) + DocumentLines(RawOf(b, keys[n - 1]))
  }

  function ContentUpTo(b: Bucket, keys: seq<string>, n: nat): Bytes
    requires n <= |keys|
  {
    if n == 0 then [] else ContentUpTo(b, keys, n - 1) + Terminated(RawOf(b, keys[n - 1]))
  }

  function EntryAt(b: Bucket, partitionKey: string, keys: seq<string>, i: nat, start: nat): CorpusPartEntry
    requires i < |keys|
  {
    CorpusPartEntry(partitionKey, keys[i], start + |RecordsUpTo(b, keys, i)|, |DocumentLines(RawOf(b, keys[i]))|)
  }

  function EntriesUpTo(b: Bucket, partitionKey: string, keys: seq<string>, n: nat, start: nat): seq<CorpusPartEntry>
    requires n <= |keys|
  {
    if n == 0 then []
    else EntriesUpTo(b, partitionKey, keys, n - 1, start) + [EntryAt(b, partitionKey, keys, n - 1, start)]
  }

  function RecordsOf(b: Bucket, keys: seq<string>): seq<Bytes> {
    RecordsUpTo(b, keys, |keys|)
  }

  /** What copying `keys` comes to. */
  function Materialized(b: Bucket, parse: Parser, partitionKey: string, keys: seq<string>,
                        start: nat): Materialization {
    Materialization(EntriesUpTo(b, partitionKey, keys, |keys|, start), Latest(parse, RecordsOf(b, keys)),
                    ContentUpTo(b, keys, |keys|))
  }

  method ReadPart(b: Bucket, parse: Parser, key: string) returns (r: Result<(nat, Option<string>)>)
    requires key in b.objects
    ensures r.Success? <==> PartIsGood(b, parse, key)
    ensures r.Success? ==>
              r.value.0 == |DocumentLines(RawOf(b, key))| && r.value.1 == Latest(parse, DocumentLines(RawOf(b, key)))
  {
    if key in b.unreadable { return Failure("unreadable part"); }
    r := ScanPartLines(b.objects[key], parse);
  }

  lemma NextEntries(b: Bucket, partitionKey: string, keys: seq<string>, i: nat, start: nat, entry: CorpusPartEntry)
    requires i < |keys| && entry == EntryAt(b, partitionKey, keys, i, start)
    ensures EntriesUpTo(b, partitionKey, keys, i, start) + [entry] == EntriesUpTo(b, partitionKey, keys, i + 1, start)
  {
  }

  lemma NextContent(b: Bucket, keys: seq<string>, i: nat)
    requires i < |keys|
    ensures ContentUpTo(b, keys, i) + Terminated(RawOf(b, keys[i])) == ContentUpTo(b, keys, i + 1)
  {
  }

  lemma NextRecords(b: Bucket, keys: seq<string>, i: nat)
    requires i < |keys|
    ensures RecordsUpTo(b, keys, i) + DocumentLines(RawOf(b, keys[i])) == RecordsUpTo(b, keys, i + 1)
  {
  }

  lemma NextCount(b: Bucket, keys: seq<string>, i: nat)
    requires i < |keys|
    ensures |RecordsUpTo(b, keys, i)| + |DocumentLines(RawOf(b, keys[i]))| == |RecordsUpTo(b, keys, i + 1)|
  {
  }

  ghost predicate AllPartsGood(b: Bucket, parse: Parser, keys: seq<string>, n: nat)
    requires n <= |keys|
  {
    n > 0 ==> AllPartsGood(b, parse, keys, n - 1) && PartIsGood(b, parse, keys[n - 1])
  }

  lemma {:induction false} AllPartsGoodMeansEach(b: Bucket, parse: Parser, keys: seq<string>, n: nat)
    requires n <= |keys|
    ensures AllPartsGood(b, parse, keys, n) <==> forall i | 0 <= i < n :: PartIsGood(b, parse, keys[i])
  {
    if n > 0 { AllPartsGoodMeansEach(b, parse, keys, n - 1); }
  }

  lemma BadPartSpoilsAll(b: Bucket, parse: Parser, keys: seq<string>, i: nat)
    requires i < |keys| && !PartIsGood(b, parse, keys[i])
    ensures !AllPartsGood(b, parse, keys, |keys|)
  {
    AllPartsGoodMeansEach(b, parse, keys, |keys|);
  }

  lemma LatestOfMore(b: Bucket, parse: Parser, keys: seq<string>, i: nat)
    requires i < |keys|
    ensures Latest(parse, RecordsUpTo(b, keys, i + 1))
            == Later(Latest(parse, RecordsUpTo(b, keys, i)), Latest(parse, DocumentLines(RawOf(b, keys[i]))))
  {
    LatestAppends(parse, RecordsUpTo(b, keys, i), DocumentLines(RawOf(b, keys[i])));
  }

  method MaterializeParts(b: Bucket, parse: Parser, partitionKey: string, keys: seq<string>, start: nat)
      returns (r: Result<Materialization>)
    requires forall i | 0 <= i < |keys| :: keys[i] in b.objects
    ensures r.Success? <==> AllPartsGood(b, parse, keys, |keys|)
    ensures r.Success? ==> r.value == Materialized(b, parse, partitionKey, keys, start)
  {
    var parts, last, content, next := [], None, [], start;
    for i := 0 to |keys|
      invariant AllPartsGood(b, parse, keys, i)
      invariant next == start + |RecordsUpTo(b, keys, i)| && last == Latest(parse, RecordsUpTo(b, keys, i))
      invariant parts == EntriesUpTo(b, partitionKey, keys, i, start)
      invariant content == ContentUpTo(b, keys, i)
    {
      var read := ReadPart(b, parse, keys[i]);
      if read.Failure? {
        BadPartSpoilsAll(b, parse, keys, i);
        return Failure(read.error);
      }
      var entry := CorpusPartEntry(partitionKey, keys[i], next, read.value.0);
      NextEntries(b, partitionKey, keys, i, start, entry);
      NextContent(b, keys, i);
      NextCount(b, keys, i);
      LatestOfMore(b, parse, keys, i);
      content, parts := content + Terminated(b.objects[keys[i]]), parts + [entry];
      next, last := next + read.value.0, Later(last, read.value.1);
    }
    return Success(Materialization(parts, last, content));
  }

  method MaterializePartitionWithParts(b: Bucket, parse: Parser, prefix: string, partitionKey: string, start: nat)
      returns (r: Result<Materialization>)
    ensures var keys := DocumentPartKeys(b, prefix, partitionKey);
            && (r.Success? <==> forall i | 0 <= i < |keys| :: PartIsGood(b, parse, keys[i]))
            && (r.Success? ==> r.value == Materialized(b, parse, partitionKey, keys, start))
  {
    var keys := ListDocumentPartKeys(b, prefix, partitionKey);
    AllPartsGoodMeansEach(b, parse, keys, |keys|);
    r := MaterializeParts(b, parse, partitionKey, keys, start);
  }

  /** `content` ends with a line feed, unless it is empty, and its lines are these records. */
  ghost predicate HoldsRecords(content: Bytes, records: seq<Bytes>) {
    (content == [] || EndsWithLF(content)) && DocumentLines(content) == records
  }

  lemma AppendingAPart(content: Bytes, records: seq<Bytes>, raw: Bytes, after: Bytes, more: seq<Bytes>)
    requires HoldsRecords(content, records)
    requires after == content + Terminated(raw) && more == records + DocumentLines(raw)
    ensures HoldsRecords(after, more)
  {
    AppendingKeepsTheEnd(content, raw);
    DocumentLinesAppend(content, raw);
  }

  lemma NextHoldsRecords(b: Bucket, keys: seq<string>, i: nat)
    requires i < |keys| && HoldsRecords(ContentUpTo(b, keys, i), RecordsUpTo(b, keys, i))
    ensures HoldsRecords(ContentUpTo(b, keys, i + 1), RecordsUpTo(b, keys, i + 1))
  {
    NextContent(b, keys, i);
    NextRecords(b, keys, i);
    AppendingAPart(ContentUpTo(b, keys, i), RecordsUpTo(b, keys, i), RawOf(b, keys[i]),
                   ContentUpTo(b, keys, i + 1), RecordsUpTo(b, keys, i + 1));
  }

  /** The numbers of leading parts whose copy has their records. */
  ghost function Copied(b: Bucket, keys: seq<string>): iset<nat> {
    iset i: nat | i <= |keys| && HoldsRecords(ContentUpTo(b, keys, i), RecordsUpTo(b, keys, i))
  }

  lemma NothingIsCopied(b: Bucket, keys: seq<string>)
    ensures 0 in Copied(b, keys)
  {
  }

  lemma NextIsCopied(b: Bucket, keys: seq<string>, i: nat)
    requires i in Copied(b, keys) && i < |keys|
    ensures i + 1 in Copied(b, keys)
  {
    NextHoldsRecords(b, keys, i);
  }

  /** What is copied has the records of the parts, one part after the other. */
  lemma ContentHoldsTheRecords(b: Bucket, keys: seq<string>, n: nat)
    requires n <= |keys|
    ensures HoldsRecords(ContentUpTo(b, keys, n), RecordsUpTo(b, keys, n))
  {
    NothingIsCopied(b, keys);
    var all := Copied(b, keys);
    forall i: nat | i in all && i < n ensures i + 1 in all { NextIsCopied(b, keys, i); }
    StepByStep(all, n);
  }

  lemma AppendingKeepsTheEnd(a: Bytes, raw: Bytes)
    requires a == [] || EndsWithLF(a)
    ensures a + Terminated(raw) == [] || EndsWithLF(a + Terminated(raw))
  {
    if Terminated(raw) == [] { assert a + Terminated(raw) == a; }
  }

  // ------------------------------------------------------------------------------------------ the catalog

  function Starts(parts: seq<CorpusPartEntry>): seq<nat> {
    seq(|parts|, i requires 0 <= i < |parts| => parts[i].startDocId)
  }

  function Counts(parts: seq<CorpusPartEntry>): seq<nat> {
    seq(|parts|, i requires 0 <= i < |parts| => parts[i].documentCount)
  }

  predicate Holds(part: CorpusPartEntry, docId: int) {
    part.startDocId <= docId < part.startDocId + part.documentCount
  }

  ghost predicate PartIsAt(b: Bucket, part: CorpusPartEntry, records: seq<Bytes>) {
    && part.startDocId + part.documentCount <= |records|
    && DocumentLines(RawOf(b, part.objectKey)) == records[part.startDocId..part.startDocId + part.documentCount]
  }

  /** The parts lie next to one another, and each holds its stretch of `records`. */
  ghost predicate Describes(b: Bucket, parts: seq<CorpusPartEntry>, records: seq<Bytes>) {
    && Bisect.Contiguous(Starts(parts), Counts(parts)) && Bisect.Sum(Counts(parts)) == |records|
    && forall i | 0 <= i < |parts| :: PartIsAt(b, parts[i], records)
  }

  function Kept(part: CorpusPartEntry): seq<CorpusPartEntry> {
    if part.documentCount > 0 then [part] else []
  }

  function NonEmpty(parts: seq<CorpusPartEntry>): seq<CorpusPartEntry> {
    if parts == [] then [] else NonEmpty(parts[..|parts| - 1]) + Kept(parts[|parts| - 1])
  }

  lemma DescribesOneMore(b: Bucket, parts: seq<CorpusPartEntry>, records: seq<Bytes>, entry: CorpusPartEntry)
    requires Describes(b, parts, records) && entry.startDocId == |records|
    requires entry.documentCount == |DocumentLines(RawOf(b, entry.objectKey))|
    ensures Describes(b, parts + [entry], records + DocumentLines(RawOf(b, entry.objectKey)))
  {
    var more, lines := parts + [entry], DocumentLines(RawOf(b, entry.objectKey));
    Bisect.ContiguousGrows(Starts(parts), Counts(parts), entry.documentCount);
    assert Starts(more) == Starts(parts) + [|records|] && Counts(more) == Counts(parts) + [entry.documentCount];
    forall i | 0 <= i < |more| ensures PartIsAt(b, more[i], records + lines) {
      if i < |parts| { PartStaysAt(b, parts[i], records, lines); } else { LastPartIsAt(b, entry, records); }
    }
  }

  lemma PartStaysAt(b: Bucket, part: CorpusPartEntry, records: seq<Bytes>, more: seq<Bytes>)
    requires PartIsAt(b, part, records)
    ensures PartIsAt(b, part, records + more)
  {
    var end := part.startDocId + part.documentCount;
    assert (records + more)[part.startDocId..end] == records[part.startDocId..end];
  }

  lemma LastPartIsAt(b: Bucket, entry: CorpusPartEntry, records: seq<Bytes>)
    requires entry.startDocId == |records| && entry.documentCount == |DocumentLines(RawOf(b, entry.objectKey))|
    ensures PartIsAt(b, entry, records + DocumentLines(RawOf(b, entry.objectKey)))
  {
  }

  /** Leaving out a part without documents loses nothing. */
  lemma DescribesKept(b: Bucket, parts: seq<CorpusPartEntry>, records: seq<Bytes>, entry: CorpusPartEntry)
    requires Describes(b, parts, records) && entry.startDocId == |records|
    requires entry.documentCount == |DocumentLines(RawOf(b, entry.objectKey))|
    ensures Describes(b, parts + Kept(entry), records + DocumentLines(RawOf(b, entry.objectKey)))
  {
    if entry.documentCount > 0 {
      DescribesOneMore(b, parts, records, entry);
    } else {
      assert parts + Kept(entry) == parts && records + DocumentLines(RawOf(b, entry.objectKey)) == records;
    }
  }

  lemma DescribesNextPart(b: Bucket, parts: seq<CorpusPartEntry>, records: seq<Bytes>, partitionKey: string,
                          keys: seq<string>, i: nat)
    requires i < |keys|
    requires Describes(b, parts + NonEmpty(EntriesUpTo(b, partitionKey, keys, i, |records|)),
                       records + RecordsUpTo(b, keys, i))
    ensures Describes(b, parts + NonEmpty(EntriesUpTo(b, partitionKey, keys, i + 1, |records|)),
                      records + RecordsUpTo(b, keys, i + 1))
  {
    var before, entry := EntriesUpTo(b, partitionKey, keys, i, |records|), EntryAt(b, partitionKey, keys, i, |records|);
    DescribesKept(b, parts + NonEmpty(before), records + RecordsUpTo(b, keys, i), entry);
    NextEntries(b, partitionKey, keys, i, |records|, entry);
    NextRecords(b, keys, i);
    NonEmptyMore(before, entry);
    Associative(parts, NonEmpty(before), Kept(entry));
    Associative(records, RecordsUpTo(b, keys, i), DocumentLines(RawOf(b, keys[i])));
  }

  lemma NoPartAtAll(b: Bucket, parts: seq<CorpusPartEntry>, records: seq<Bytes>, partitionKey: string,
                    keys: seq<string>)
    requires Describes(b, parts, records)
    ensures Describes(b, parts + NonEmpty(EntriesUpTo(b, partitionKey, keys, 0, |records|)),
                      records + RecordsUpTo(b, keys, 0))
  {
    assert parts + [] == parts && records + [] == records;
  }

  /** The numbers of leading parts with which the catalog still describes the records. */
  ghost function Described(b: Bucket, parts: seq<CorpusPartEntry>, records: seq<Bytes>, partitionKey: string,
                           keys: seq<string>): iset<nat> {
    iset i: nat | i <= |keys| &&
      Describes(b, parts + NonEmpty(EntriesUpTo(b, partitionKey, keys, i, |records|)),
                records + RecordsUpTo(b, keys, i))
  }

  lemma NextIsDescribed(b: Bucket, parts: seq<CorpusPartEntry>, records: seq<Bytes>, partitionKey: string,
                        keys: seq<string>, i: nat)
    requires i in Described(b, parts, records, partitionKey, keys) && i < |keys|
    ensures i + 1 in Described(b, parts, records, partitionKey, keys)
  {
    DescribesNextPart(b, parts, records, partitionKey, keys, i);
  }

  lemma DescribesOnePartition(b: Bucket, parts: seq<CorpusPartEntry>, records: seq<Bytes>, partitionKey: string,
                              keys: seq<string>, n: nat)
    requires Describes(b, parts, records) && n <= |keys|
    ensures Describes(b, parts + NonEmpty(EntriesUpTo(b, partitionKey, keys, n, |records|)),
                      records + RecordsUpTo(b, keys, n))
  {
    NoPartAtAll(b, parts, records, partitionKey, keys);
    var all := Described(b, parts, records, partitionKey, keys);
    forall i: nat | i in all && i < n
      ensures i + 1 in all
    {
      NextIsDescribed(b, parts, records, partitionKey, keys, i);
    }
    StepByStep(all, n);
  }

  lemma NonEmptyMore(parts: seq<CorpusPartEntry>, entry: CorpusPartEntry)
    ensures NonEmpty(parts + [entry]) == NonEmpty(parts) + Kept(entry)
  {
    assert (parts + [entry])[..|parts|] == parts;
  }

  lemma OnlyCandidate(parts: seq<CorpusPartEntry>, docId: int, p: nat)
    requires Bisect.Apart(Starts(parts), Counts(parts)) && p <= |parts|
    requires forall i | 0 <= i < p :: Starts(parts)[i] <= docId
    requires forall i | p <= i < |parts| :: docId < Starts(parts)[i]
    ensures forall q | q in parts && Holds(q, docId) :: p > 0 && q == parts[p - 1]
  {
    Bisect.InsertionPointIsTheOnlyCandidate(Starts(parts), Counts(parts), docId, p);
    forall q | q in parts && Holds(q, docId) ensures p > 0 && q == parts[p - 1] {
      var i :| 0 <= i < |parts| && parts[i] == q;
      assert Starts(parts)[i] <= docId < Starts(parts)[i] + Counts(parts)[i];
    }
  }

  /**
   The last part that does not start after the id decides. If parts do not overlap, that is the part that holds the id;
   if there are no gaps between them either, every id below the total has one.
   */
  method PartFor(parts: seq<CorpusPartEntry>, docId: int) returns (part: Option<CorpusPartEntry>)
    requires Bisect.Ascending(Starts(parts))
    ensures part.Some? ==> part.value in parts && Holds(part.value, docId)
    ensures part.Some? ==> exists i :: Bisect.IsLastUpTo(Starts(parts), docId, i) && part == Some(parts[i])
    ensures forall i | Bisect.IsLastUpTo(Starts(parts), docId, i) ::
              part == if Holds(parts[i], docId) then Some(parts[i]) else None
    ensures Bisect.Apart(Starts(parts), Counts(parts)) ==> forall p | p in parts && Holds(p, docId) :: part == Some(p)
    ensures Bisect.Contiguous(Starts(parts), Counts(parts)) ==>
              (part.Some? <==> 0 <= docId < Bisect.Sum(Counts(parts)))
  {
    var p := Bisect.BisectRight(Starts(parts), docId);
    Bisect.LastUpToIsBeforeTheInsertionPoint(Starts(parts), docId, p);
    if Bisect.Apart(Starts(parts), Counts(parts)) { OnlyCandidate(parts, docId, p); }
    if Bisect.Contiguous(Starts(parts), Counts(parts)) {
      Bisect.InsertionPointFindsTheRange(Starts(parts), Counts(parts), docId, p);
    }
    if p == 0 || !Holds(parts[p - 1], docId) { return None; }
    assert Bisect.IsLastUpTo(Starts(parts), docId, p - 1);
    return Some(parts[p - 1]);
  }
}
