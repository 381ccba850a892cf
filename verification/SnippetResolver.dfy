/**
 Document ids resolved to texts, one part file at a time, behind a bounded cache of parts
 (src/beacon_scale_infra/console/snippets.py). The part files do not change; any of them may be out of reach at
 any time.
 */
module SnippetResolver {
  import opened Wrappers
  import opened CorpusLines
  import opened CorpusCatalog
  import opened OrderedDict
  import opened IndexPipeline
  import Bisect

  function Parsed(parse: Parser, lines: seq<Bytes>): seq<Document>
    requires AllParse(parse, lines)
  {
    seq(|lines|, i requires 0 <= i < |lines| => parse(lines[i]).value)
  }

  method ParsePartDocuments(raw: Bytes, parse: Parser) returns (r: Option<seq<Document>>)
    ensures r.Some? <==> AllParse(parse, DocumentLines(raw))
    ensures r.Some? ==> r.value == Parsed(parse, DocumentLines(raw))
  {
    var lines := SplitLines(raw);
    var documents := [];
    for i := 0 to |lines|
      invariant AllParse(parse, NonBlank(lines[..i]))
      invariant documents == Parsed(parse, NonBlank(lines[..i]))
    {
      var line := Strip(lines[i]);
      NonBlankMore(lines, i);
      if line != [] {
        assert NonBlank(lines[..i + 1])[|NonBlank(lines[..i])|] == line;
        if parse(line).None? {
          NonBlankPrefix(lines, i + 1);
          return None;
        }
        documents := documents + [parse(line).value];
      }
    }
    assert lines[..|lines|] == lines;
    return Some(documents);
  }

  /** What resolving must give for a corpus of these records. */
  function DocumentAt(parse: Parser, records: seq<Bytes>, docId: int): Option<Document> {
    if 0 <= docId < |records| then parse(records[docId]) else None
  }

  type Cache = Dict<string, seq<Document>>

  /** Every part in the cache is what its file says. */
  ghost predicate Faithful(objects: map<string, Bytes>, parse: Parser, cache: Cache) {
    forall e | e in cache ::
      && e.key in objects && AllParse(parse, DocumentLines(objects[e.key]))
      && e.value == Parsed(parse, DocumentLines(objects[e.key]))
  }

  class PartitionedSnippetResolver {
    const objects: map<string, Bytes>
    const parse: Parser
    const parts: seq<CorpusPartEntry>
    const maxCachedParts: nat
    var partsCache: Cache

    constructor (objects: map<string, Bytes>, parse: Parser, parts: seq<CorpusPartEntry>, maxCachedParts: nat)
      requires maxCachedParts > 0 && Bisect.Ascending(Starts(parts))
      ensures this.objects == objects && this.parse == parse && this.parts == parts
      ensures this.maxCachedParts == maxCachedParts
      ensures Valid()
    {
      this.objects, this.parse, this.parts, this.maxCachedParts := objects, parse, parts, maxCachedParts;
      partsCache := [];
    }

    ghost predicate Valid()
      reads this
    {
      && maxCachedParts > 0 && Bisect.Ascending(Starts(parts))
      && Unique(partsCache) && |partsCache| <= maxCachedParts
      && Faithful(objects, parse, partsCache)
    }

    ghost predicate CanAnswer(key: string, unreadable: set<string>)
      reads this
    {
      Lookup(partsCache, key).Some?
          || (key in objects && key !in unreadable && AllParse(parse, DocumentLines(objects[key])))
    }

    function AnswerIf(can: bool, part: CorpusPartEntry, docId: int): Option<Document>
      requires Holds(part, docId)
    {
      if can then AnswerFrom(objects, parse, part, docId) else None
    }

    method DocumentsOfPart(key: string, unreadable: set<string>) returns (r: Option<seq<Document>>)
      requires Valid()
      modifies this
      ensures Valid()
      ensures r.Some? <==> old(CanAnswer(key, unreadable))
      ensures r.Some? ==> key in objects && AllParse(parse, DocumentLines(objects[key]))
                          && r.value == Parsed(parse, DocumentLines(objects[key]))
      ensures r.None? ==> partsCache == old(partsCache)
      ensures r.Some? ==>
                && partsCache == LeastRecentlyUsedLast(old(partsCache), key, r.value, maxCachedParts)
                && IsNewest(partsCache, key, r.value)
                && OnlyTheOldestGoes(old(partsCache), partsCache, maxCachedParts)
    {
      var cached := Lookup(partsCache, key);
      LookupIsMember(partsCache, key);
      if cached.Some? {
        AskedForStays(partsCache, key, cached.value, maxCachedParts);
        MoveToEndMembers(partsCache, key, cached.value);
        partsCache := MoveToEnd(partsCache, key, cached.value);
        return cached;
      }
      if key in unreadable || key !in objects { return None; }
      var documents := ParsePartDocuments(objects[key], parse);
      if documents.None? { return None; }
      Keep(key, documents.value);
      return documents;
    }

    method Keep(key: string, documents: seq<Document>)
      requires Valid() && Lookup(partsCache, key).None?
      requires key in objects && AllParse(parse, DocumentLines(objects[key]))
      requires documents == Parsed(parse, DocumentLines(objects[key]))
      modifies this
      ensures Valid()
      ensures partsCache == LeastRecentlyUsedLast(old(partsCache), key, documents, maxCachedParts)
      ensures IsNewest(partsCache, key, documents)
      ensures OnlyTheOldestGoes(old(partsCache), partsCache, maxCachedParts)
    {
      LookupIsMember(partsCache, key);
      AskedForStays(partsCache, key, documents, maxCachedParts);
      partsCache := partsCache + [Entry(key, documents)];
      if |partsCache| > maxCachedParts { partsCache := partsCache[1..]; }
    }

    /**
     The last part that does not start after the id decides, and is the part that holds the id if parts do not overlap.
     The answer is what the part's file says, whatever was looked up before.
     */
    method Resolve(docId: int, unreadable: set<string>) returns (r: Option<Document>)
      requires Valid()
      modifies this
      ensures Valid()
      ensures (forall i | Bisect.IsLastUpTo(Starts(parts), docId, i) :: !Holds(parts[i], docId)) ==>
                r.None? && partsCache == old(partsCache)
      ensures forall i | Bisect.IsLastUpTo(Starts(parts), docId, i) && Holds(parts[i], docId) ::
                r == AnswerIf(old(CanAnswer(parts[i].objectKey, unreadable)), parts[i], docId)
      ensures Bisect.Apart(Starts(parts), Counts(parts)) ==>
                forall p | p in parts && Holds(p, docId) ::
                  r == AnswerIf(old(CanAnswer(p.objectKey, unreadable)), p, docId)
    {
      var part := PartFor(parts, docId);
      if part.None? { return None; }
      r := DocumentIn(part.value, docId, unreadable);
    }

    method DocumentIn(part: CorpusPartEntry, docId: int, unreadable: set<string>) returns (r: Option<Document>)
      requires Valid() && Holds(part, docId)
      modifies this
      ensures Valid()
      ensures r == AnswerIf(old(CanAnswer(part.objectKey, unreadable)), part, docId)
    {
      var documents := DocumentsOfPart(part.objectKey, unreadable);
      if documents.None? { return None; }
      var localPosition := docId - part.startDocId;
      if localPosition >= |documents.value| { return None; }
      return Some(documents.value[localPosition]);
    }
  }

  /** What the file of `part` holds for `docId`: nothing, if it holds fewer documents than the catalog says. */
  function AnswerFrom(objects: map<string, Bytes>, parse: Parser, part: CorpusPartEntry, docId: int): Option<Document>
    requires Holds(part, docId)
  {
    var lines := DocumentLines(RawOf(Bucket(objects, {}), part.objectKey));
    if docId - part.startDocId < |lines| then parse(lines[docId - part.startDocId]) else None
  }

  /** For a catalog that describes `records`, that is the record at that position, and every id of one has a part. */
  lemma CatalogIsExact(b: Bucket, parse: Parser, parts: seq<CorpusPartEntry>, records: seq<Bytes>, docId: int)
    requires Describes(b, parts, records)
    ensures forall p | p in parts && Holds(p, docId) ::
              AnswerFrom(b.objects, parse, p, docId) == DocumentAt(parse, records, docId)
    ensures 0 <= docId < |records| <==> exists p :: p in parts && Holds(p, docId)
  {
    forall p | p in parts && Holds(p, docId)
      ensures 0 <= docId < |records| && AnswerFrom(b.objects, parse, p, docId) == DocumentAt(parse, records, docId)
    {
      PartHoldsTheRecord(b, parts, records, p, docId);
    }
    if 0 <= docId < |records| { SomePartHolds(parts, docId); }
  }

  lemma SomePartHolds(parts: seq<CorpusPartEntry>, docId: nat)
    requires Bisect.Contiguous(Starts(parts), Counts(parts)) && docId < Bisect.Sum(Counts(parts))
    ensures exists p :: p in parts && Holds(p, docId)
  {
    var i := Bisect.RangeOf(Starts(parts), Counts(parts), docId);
    assert parts[i] in parts && Holds(parts[i], docId);
  }

  lemma PartHoldsTheRecord(b: Bucket, parts: seq<CorpusPartEntry>, records: seq<Bytes>, part: CorpusPartEntry,
                           docId: int)
    requires Describes(b, parts, records) && part in parts && Holds(part, docId)
    ensures var lines := DocumentLines(RawOf(b, part.objectKey));
            && |lines| == part.documentCount && 0 <= docId < |records|
            && lines[docId - part.startDocId] == records[docId]
  {
    PartIsWhereItShouldBe(b, parts, records, part);
    RecordInPart(b, part, records, docId - part.startDocId);
  }

  lemma PartIsWhereItShouldBe(b: Bucket, parts: seq<CorpusPartEntry>, records: seq<Bytes>, part: CorpusPartEntry)
    requires Describes(b, parts, records) && part in parts
    ensures PartIsAt(b, part, records)
  {
    var i :| 0 <= i < |parts| && parts[i] == part;
    assert PartIsAt(b, parts[i], records);
  }

  lemma RecordInPart(b: Bucket, part: CorpusPartEntry, records: seq<Bytes>, i: nat)
    requires PartIsAt(b, part, records) && i < part.documentCount
    ensures var lines := DocumentLines(RawOf(b, part.objectKey));
            && |lines| == part.documentCount && part.startDocId + i < |records|
            && lines[i] == records[part.startDocId + i]
  {
  }

  lemma CatalogIsTaken(b: Bucket, parts: seq<CorpusPartEntry>, records: seq<Bytes>)
    requires Describes(b, parts, records)
    ensures Bisect.Ascending(Starts(parts)) && Bisect.Apart(Starts(parts), Counts(parts))
  {
    Bisect.ContiguousIsApart(Starts(parts), Counts(parts));
    Bisect.ApartAscends(Starts(parts), Counts(parts));
  }

  /** So, with the catalog of a run, document `docId` is line `docId` of the corpus that the run published. */
  lemma ResolvingAgreesWithTheCorpus(b: Bucket, parse: Parser, analyse: Analyser, p: Published, records: seq<Bytes>,
                                     docId: int)
    requires IsIndexOf(b, parse, analyse, p, records)
    ensures forall part | part in p.parts && Holds(part, docId) ::
              AnswerFrom(b.objects, parse, part, docId) == DocumentAt(parse, DocumentLines(p.corpus), docId)
    ensures (exists part :: part in p.parts && Holds(part, docId)) <==> docId in p.index.documents.Keys
    ensures Bisect.Ascending(Starts(p.parts)) && Bisect.Apart(Starts(p.parts), Counts(p.parts))
  {
    CatalogIsTaken(b, p.parts, records);
    CatalogIsExact(b, parse, p.parts, records, docId);
  }

  /** A part that was asked for becomes the last one to go; one too many, and the first one goes. */
  function LeastRecentlyUsedLast(cache: Cache, key: string, documents: seq<Document>, bound: nat): Cache {
    if Lookup(cache, key).Some? then MoveToEnd(cache, key, documents)
    else
      var more := cache + [Entry(key, documents)];
      if |more| > bound then more[1..] else more
  }

  ghost predicate IsNewest(cache: Cache, key: string, documents: seq<Document>) {
    cache != [] && cache[|cache| - 1] == Entry(key, documents)
  }

  ghost predicate OnlyTheOldestGoes(before: Cache, after: Cache, bound: nat) {
    forall i | 0 <= i < |before| && before[i] !in after :: i == 0 && |before| == bound
  }

  lemma AskedForStays(cache: Cache, key: string, documents: seq<Document>, bound: nat)
    requires Unique(cache) && |cache| <= bound && bound > 0
    requires Lookup(cache, key).Some? ==> Lookup(cache, key).value == documents
    ensures var after := LeastRecentlyUsedLast(cache, key, documents, bound);
            IsNewest(after, key, documents) && OnlyTheOldestGoes(cache, after, bound)
  {
    LookupIsMember(cache, key);
    if Lookup(cache, key).Some? {
      MoveToEndMembers(cache, key, documents);
    } else {
      var more := cache + [Entry(key, documents)];
      assert forall i | 0 < i < |cache| :: more[1..][i - 1] == cache[i];
      assert forall i | 0 <= i < |cache| :: more[i] == cache[i];
    }
  }
}
