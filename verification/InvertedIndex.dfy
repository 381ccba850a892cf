/**
 Inverted indexes, and what building one over a list of documents gives. `IndexBuilder` belongs to another
 package: a document's id is its position, postings ascend by id, a term's document frequency is the number of its
 postings, and the statistics are taken in one pass over the documents.
 */
module InvertedIndex {
  import opened Wrappers

  type Term = string

  datatype Occurrence = Occurrence(termFrequency: nat, positions: seq<nat>)

  /** A document as text analysis leaves it. */
  datatype Analysed = Analysed(url: string, title: string, length: nat, terms: map<Term, Occurrence>)

  datatype DocumentRecord = DocumentRecord(docId: nat, url: string, title: string, length: nat)

  datatype Posting = Posting(docId: nat, termFrequency: nat, positions: seq<nat>)

  datatype PostingsList = PostingsList(term: Term, documentFrequency: nat, postings: seq<Posting>)

  /** The average document length is kept as the pair it is the quotient of. */
  datatype IndexStats = IndexStats(totalDocuments: nat, vocabularySize: nat, totalPostings: nat, totalLength: nat)

  datatype Index = Index(documents: map<nat, DocumentRecord>, postings: map<Term, PostingsList>, stats: IndexStats)

  // ------------------------------------------------------------------------------ one build over documents

  function Vocabulary(docs: seq<Analysed>): set<Term> {
    set i, t | 0 <= i < |docs| && t in docs[i].terms :: t
  }

  function PostingsOf(doc: Analysed, t: Term, id: nat): seq<Posting> {
    if t in doc.terms then [Posting(id, doc.terms[t].termFrequency, doc.terms[t].positions)] else []
  }

  function Postings(docs: seq<Analysed>, t: Term, base: nat): seq<Posting> {
    if docs == [] then []
    else Postings(docs[..|docs| - 1], t, base) + PostingsOf(docs[|docs| - 1], t, base + |docs| - 1)
  }

  /** The ids `base .. base + n`. */
  function Ids(base: nat, n: nat): (ids: set<nat>)
    ensures forall id: nat :: id in ids <==> base <= id < base + n
  {
    if n == 0 then {} else Ids(base, n - 1) + {base + n - 1}
  }

  function Records(docs: seq<Analysed>, base: nat): map<nat, DocumentRecord> {
    map id | id in Ids(base, |docs|) ::
      DocumentRecord(id, docs[id - base].url, docs[id - base].title, docs[id - base].length)
  }

  function Lists(docs: seq<Analysed>, base: nat): map<Term, PostingsList> {
    map t | t in Vocabulary(docs) :: PostingsList(t, |Postings(docs, t, base)|, Postings(docs, t, base))
  }

  /** One pass over the documents: each contributes one posting per distinct term. */
  function PostingCount(docs: seq<Analysed>): nat {
    if docs == [] then 0 else PostingCount(docs[..|docs| - 1]) + |docs[|docs| - 1].terms|
  }

  function LengthSum(docs: seq<Analysed>): nat {
    if docs == [] then 0 else LengthSum(docs[..|docs| - 1]) + docs[|docs| - 1].length
  }

  function StatsOf(docs: seq<Analysed>): IndexStats {
    IndexStats(|docs|, |Vocabulary(docs)|, PostingCount(docs), LengthSum(docs))
  }

  /** The index of `docs` with ids counted from `base`; `IndexBuilder` always counts from 0. */
  function BuildFrom(docs: seq<Analysed>, base: nat): Index {
    Index(Records(docs, base), Lists(docs, base), StatsOf(docs))
  }

  function Build(docs: seq<Analysed>): Index {
    BuildFrom(docs, 0)
  }

  lemma {:induction false} PostingsAscend(docs: seq<Analysed>, t: Term, base: nat)
    ensures forall i | 0 <= i < |Postings(docs, t, base)| :: base <= Postings(docs, t, base)[i].docId < base + |docs|
    ensures forall i, k | 0 <= i < k < |Postings(docs, t, base)| ::
              Postings(docs, t, base)[i].docId < Postings(docs, t, base)[k].docId
  {
    if docs != [] { PostingsAscend(docs[..|docs| - 1], t, base); }
  }

  /** The posting of one document in which the term occurs. */
  ghost predicate IsOccurrence(docs: seq<Analysed>, t: Term, base: nat, p: Posting, i: nat) {
    && i < |docs| && t in docs[i].terms
    && p == Posting(base + i, docs[i].terms[t].termFrequency, docs[i].terms[t].positions)
  }

  /** One posting for every document in which the term occurs, with its frequency and positions there. */
  lemma {:induction false} PostingsAreOccurrences(docs: seq<Analysed>, t: Term, base: nat)
    ensures forall p | p in Postings(docs, t, base) :: exists i: nat :: IsOccurrence(docs, t, base, p, i)
    ensures forall p, i: nat | IsOccurrence(docs, t, base, p, i) :: p in Postings(docs, t, base)
  {
    if docs != [] {
      var n := |docs| - 1;
      PostingsAreOccurrences(docs[..n], t, base);
      var before, all := Postings(docs[..n], t, base), Postings(docs, t, base);
      forall p | p in all ensures exists i: nat :: IsOccurrence(docs, t, base, p, i) {
        if p in before {
          var i: nat :| IsOccurrence(docs[..n], t, base, p, i);
          assert IsOccurrence(docs, t, base, p, i);
        } else {
          assert IsOccurrence(docs, t, base, p, n);
        }
      }
      forall p, i: nat | IsOccurrence(docs, t, base, p, i) ensures p in all {
        if i < n {
          assert IsOccurrence(docs[..n], t, base, p, i);
        } else {
          assert p in PostingsOf(docs[n], t, base + n);
        }
      }
    }
  }

  lemma {:induction false} PostingsAppend(a: seq<Analysed>, b: seq<Analysed>, t: Term, base: nat)
    ensures Postings(a + b, t, base) == Postings(a, t, base) + Postings(b, t, base + |a|)
  {
    if b == [] {
      assert a + b == a;
    } else {
      assert (a + b)[..|a + b| - 1] == a + b[..|b| - 1];
      PostingsAppend(a, b[..|b| - 1], t, base);
    }
  }

  lemma {:induction false} LengthsAppend(a: seq<Analysed>, b: seq<Analysed>)
    ensures LengthSum(a + b) == LengthSum(a) + LengthSum(b)
  {
    if b == [] {
      assert a + b == a;
    } else {
      assert (a + b)[..|a + b| - 1] == a + b[..|b| - 1];
      LengthsAppend(a, b[..|b| - 1]);
    }
  }

  lemma {:induction false} UnknownTermsHaveNoPostings(docs: seq<Analysed>, t: Term, base: nat)
    requires t !in Vocabulary(docs)
    ensures Postings(docs, t, base) == []
  {
    if docs != [] {
      var init := docs[..|docs| - 1];
      assert t !in docs[|docs| - 1].terms;
      assert forall i | 0 <= i < |init| :: init[i] == docs[i];
      UnknownTermsHaveNoPostings(init, t, base);
    }
  }

  lemma VocabularyAppends(a: seq<Analysed>, b: seq<Analysed>)
    ensures Vocabulary(a + b) == Vocabulary(a) + Vocabulary(b)
  {
    forall t | t in Vocabulary(b) ensures t in Vocabulary(a + b) {
      var i :| 0 <= i < |b| && t in b[i].terms;
      assert (a + b)[|a| + i] == b[i];
    }
    forall t | t in Vocabulary(a) ensures t in Vocabulary(a + b) {
      var i :| 0 <= i < |a| && t in a[i].terms;
      assert (a + b)[i] == a[i];
    }
  }

  // -------------------------------------------------------------------------------- counting both ways

  /** What the values of a map add up to, in whatever order they are taken. */
  ghost function TotalOf<X(!new)>(m: map<X, nat>): nat {
    if m == map[] then 0 else var x :| x in m; m[x] + TotalOf(m - {x})
  }

  lemma {:induction false} TotalRemoves<X(!new)>(m: map<X, nat>, x: X)
    requires x in m
    ensures TotalOf(m) == m[x] + TotalOf(m - {x})
  {
    var y :| y in m && TotalOf(m) == m[y] + TotalOf(m - {y});
    if x != y {
      TotalRemoves(m - {y}, x);
      TotalRemoves(m - {x}, y);
      assert m - {x} - {y} == m - {y} - {x};
    }
  }

  /** Raising the values of `part` by one raises the total by the size of `part`. */
  lemma {:induction false} TotalRises<X(!new)>(m: map<X, nat>, raised: map<X, nat>, part: set<X>)
    requires raised.Keys == m.Keys && part <= m.Keys
    requires forall x | x in m :: raised[x] == m[x] + if x in part then 1 else 0
    ensures TotalOf(raised) == TotalOf(m) + |part|
  {
    if m == map[] {
      assert raised == map[];
    } else {
      var x :| x in m;
      TotalRemoves(m, x);
      TotalRemoves(raised, x);
      TotalRises(m - {x}, raised - {x}, part - {x});
      if x !in part { assert part - {x} == part; }
    }
  }

  lemma {:induction false} TotalOfZeros<X(!new)>(m: map<X, nat>)
    requires forall x | x in m :: m[x] == 0
    ensures TotalOf(m) == 0
  {
    if m != map[] {
      var x :| x in m;
      TotalRemoves(m, x);
      TotalOfZeros(m - {x});
    }
  }

  function PostingCounts(docs: seq<Analysed>, terms: set<Term>, base: nat): map<Term, nat> {
    map t | t in terms :: |Postings(docs, t, base)|
  }

  /** Postings counted term by term are as many as postings counted document by document. */
  lemma {:induction false} PostingsCountedBothWays(docs: seq<Analysed>, terms: set<Term>, base: nat)
    requires Vocabulary(docs) <= terms
    ensures TotalOf(PostingCounts(docs, terms, base)) == PostingCount(docs)
  {
    if docs == [] {
      TotalOfZeros(PostingCounts(docs, terms, base));
    } else {
      var init, last := docs[..|docs| - 1], docs[|docs| - 1];
      assert docs == init + [last];
      VocabularyAppends(init, [last]);
      forall t | t in last.terms ensures t in terms { assert t in docs[|docs| - 1].terms; }
      PostingsCountedBothWays(init, terms, base);
      TotalRises(PostingCounts(init, terms, base), PostingCounts(docs, terms, base), last.terms.Keys);
    }
  }

  function Lengths(documents: map<nat, DocumentRecord>): map<nat, nat> {
    map id | id in documents :: documents[id].length
  }

  lemma LengthsDropLast(docs: seq<Analysed>, base: nat, last: nat)
    requires docs != [] && last == base + |docs| - 1
    ensures var all := Lengths(Records(docs, base));
            && last in all && all[last] == docs[|docs| - 1].length
            && all - {last} == Lengths(Records(docs[..|docs| - 1], base))
  {
  }

  lemma {:induction false} LengthsCountedBothWays(docs: seq<Analysed>, base: nat)
    ensures TotalOf<nat>(Lengths(Records(docs, base))) == LengthSum(docs)
  {
    if docs == [] {
      assert Lengths(Records(docs, base)) == map[];
    } else {
      var last: nat := base + |docs| - 1;
      LengthsDropLast(docs, base, last);
      TotalRemoves<nat>(Lengths(Records(docs, base)), last);
      LengthsCountedBothWays(docs[..|docs| - 1], base);
    }
  }

  // ------------------------------------------------------------------------------ shifting document ids

  /** Every record is stored under its own id. */
  ghost predicate Keyed(index: Index) {
    forall id | id in index.documents :: index.documents[id].docId == id
  }

  function RemapDocument(record: DocumentRecord, offset: nat): DocumentRecord {
    record.(docId := record.docId + offset)
  }

  function RemapPostings(postings: seq<Posting>, offset: nat): seq<Posting> {
    seq(|postings|, i requires 0 <= i < |postings| => postings[i].(docId := postings[i].docId + offset))
  }

  function RemapPostingsList(list: PostingsList, offset: nat): PostingsList {
    list.(postings := RemapPostings(list.postings, offset))
  }

  function Shifted(ids: set<nat>, offset: nat): (r: set<nat>)
    ensures forall id :: id in r <==> id >= offset && id - offset in ids
  {
    var r := set k | k in ids :: k + offset;
    assert forall id | id >= offset && id - offset in ids :: id in r by {
      forall id | id >= offset && id - offset in ids ensures id in r {
        var k := id - offset;
        assert k in ids && k + offset == id;
      }
    }
    r
  }

  function RemapIndexToGlobalDocIds(index: Index, offset: int): Result<Index>
    requires Keyed(index)
  {
    if offset == 0 then Success(index)
    else if offset < 0 then Failure("negative document id offset")
    else
      Success(Index(
        ShiftedRecords(index.documents, offset),
        map t | t in index.postings :: RemapPostingsList(index.postings[t], offset),
        index.stats))
  }

  lemma {:induction false} RemappedPostings(docs: seq<Analysed>, t: Term, base: nat, offset: nat)
    ensures RemapPostings(Postings(docs, t, base), offset) == Postings(docs, t, base + offset)
  {
    if docs != [] { RemappedPostings(docs[..|docs| - 1], t, base, offset); }
  }

  function ShiftedRecords(all: map<nat, DocumentRecord>, offset: nat): map<nat, DocumentRecord> {
    map id | id in Shifted(all.Keys, offset) :: RemapDocument(all[id - offset], offset)
  }

  lemma RemappedRecord(docs: seq<Analysed>, offset: nat, id: nat)
    ensures id in Shifted(Records(docs, 0).Keys, offset) <==> id in Records(docs, offset)
    ensures id in Records(docs, offset) ==>
              id >= offset && id - offset in Records(docs, 0)
              && RemapDocument(Records(docs, 0)[id - offset], offset) == Records(docs, offset)[id]
  {
  }

  lemma RemappedRecords(docs: seq<Analysed>, offset: nat)
    ensures ShiftedRecords(Records(docs, 0), offset) == Records(docs, offset)
  {
    var shifted := ShiftedRecords(Records(docs, 0), offset);
    forall id: nat ensures id in shifted <==> id in Records(docs, offset)
      ensures id in shifted ==> shifted[id] == Records(docs, offset)[id] {
      RemappedRecord(docs, offset, id);
    }
  }

  lemma RemappedLists(docs: seq<Analysed>, offset: nat)
    ensures var all := Lists(docs, 0);
            (map t | t in all :: RemapPostingsList(all[t], offset)) == Lists(docs, offset)
  {
    forall t | t in Vocabulary(docs) ensures RemapPostingsList(Lists(docs, 0)[t], offset) == Lists(docs, offset)[t] {
      RemappedPostings(docs, t, 0, offset);
    }
  }

  /** Shifting the ids of a build is the build with ids counted from there; only a negative offset is refused. */
  lemma RemapIsBuildFrom(docs: seq<Analysed>, offset: int)
    ensures Keyed(Build(docs))
    ensures RemapIndexToGlobalDocIds(Build(docs), offset)
            == if offset < 0 then Failure("negative document id offset") else Success(BuildFrom(docs, offset))
  {
    if offset > 0 {
      RemappedRecords(docs, offset);
      RemappedLists(docs, offset);
    }
  }
}
