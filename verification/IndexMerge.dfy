/** The reduce step: partial indexes, already in global ids, merged into one (src/beacon_scale_infra/index/merge.py). */
module IndexMerge {
  import opened Wrappers
  import opened Collections
  import opened InvertedIndex

  /** Every id of an earlier index lies below every id of a later one. */
  ghost predicate Increasing(indexes: seq<Index>) {
    forall i, k, a, b | 0 <= i < k < |indexes| && a in indexes[i].documents && b in indexes[k].documents :: a < b
  }

  method Min(ids: set<nat>) returns (m: nat)
    requires ids != {}
    ensures m in ids && forall id | id in ids :: m <= id
  {
    m :| m in ids;
    var rest := ids - {m};
    while rest != {}
      invariant rest <= ids && m in ids && forall id | id in ids && id !in rest :: m <= id
    {
      var id :| id in rest;
      if id < m { m := id; }
      rest := rest - {id};
    }
  }

  method Max(ids: set<nat>) returns (m: nat)
    requires ids != {}
    ensures m in ids && forall id | id in ids :: id <= m
  {
    m :| m in ids;
    var rest := ids - {m};
    while rest != {}
      invariant rest <= ids && m in ids && forall id | id in ids && id !in rest :: id <= m
    {
      var id :| id in rest;
      if id > m { m := id; }
      rest := rest - {id};
    }
  }

  method EnsureStrictlyIncreasingRanges(indexes: seq<Index>) returns (r: Result<()>)
    ensures r.Success? <==> Increasing(indexes)
  {
    var lastMax: int := -1;
    ghost var owner: int := -1;
    for j := 0 to |indexes|
      invariant Increasing(indexes[..j])
      invariant forall i, a | 0 <= i < j && a in indexes[i].documents :: a <= lastMax
      invariant lastMax == -1 || (0 <= owner < j && lastMax in indexes[owner].documents)
    {
      if indexes[j].documents != map[] {
        assert indexes[j].documents.Keys != {} by { var id :| id in indexes[j].documents; }
        var currentMin := Min(indexes[j].documents.Keys);
        if currentMin <= lastMax {
          assert lastMax in indexes[owner].documents && currentMin in indexes[j].documents;
          return Failure("partial indexes out of order");
        }
        lastMax := Max(indexes[j].documents.Keys);
        owner := j;
      }
    }
    assert indexes[..|indexes|] == indexes;
    return Success(());
  }

  // --------------------------------------------------------------------------------------- what is merged

  function MergedDocuments(indexes: seq<Index>): map<nat, DocumentRecord> {
    if indexes == [] then map[]
    else MergedDocuments(indexes[..|indexes| - 1]) + indexes[|indexes| - 1].documents
  }

  function TermsOf(indexes: seq<Index>): set<Term> {
    set i, t | 0 <= i < |indexes| && t in indexes[i].postings :: t
  }

  function PostingsIn(index: Index, t: Term): seq<Posting> {
    if t in index.postings then index.postings[t].postings else []
  }

  function MergedPostings(indexes: seq<Index>, t: Term): seq<Posting> {
    if indexes == [] then []
    else MergedPostings(indexes[..|indexes| - 1], t) + PostingsIn(indexes[|indexes| - 1], t)
  }

  ghost function Merged(indexes: seq<Index>): Index {
    var documents := MergedDocuments(indexes);
    var lists := map t | t in TermsOf(indexes) ::
                   PostingsList(t, |MergedPostings(indexes, t)|, MergedPostings(indexes, t));
    Index(documents, lists, StatsOfMerged(documents, lists))
  }

  /** The statistics are recomputed from the merged dictionaries: postings term by term, lengths record by record. */
  ghost function StatsOfMerged(documents: map<nat, DocumentRecord>, lists: map<Term, PostingsList>): IndexStats {
    IndexStats(|documents|, |lists|, TotalOf(ListSizes(lists)), TotalOf(Lengths(documents)))
  }

  function ListSizes(lists: map<Term, PostingsList>): map<Term, nat> {
    map t | t in lists :: |lists[t].postings|
  }

  method SumValues<X(==,!new)>(m: map<X, nat>) returns (total: nat)
    ensures total == TotalOf(m)
  {
    total := 0;
    var rest := m;
    while rest != map[]
      invariant total + TotalOf(rest) == TotalOf(m)
      decreases |rest|
    {
      assert rest.Keys != {} by { var x :| x in rest; }
      var x :| x in rest.Keys;
      TotalRemoves(rest, x);
      assert |(rest - {x}).Keys| < |rest.Keys|;
      total := total + rest[x];
      rest := rest - {x};
    }
  }

  method ComputeStats(documents: map<nat, DocumentRecord>, lists: map<Term, PostingsList>) returns (stats: IndexStats)
    ensures stats == StatsOfMerged(documents, lists)
  {
    var totalPostings := SumValues(ListSizes(lists));
    var totalLength := SumValues(Lengths(documents));
    stats := IndexStats(|documents|, |lists|, totalPostings, totalLength);
  }

  ghost predicate NoIdTwice(indexes: seq<Index>) {
    forall i, k, id | 0 <= i < k < |indexes| && id in indexes[i].documents :: id !in indexes[k].documents
  }

  method UnionDocuments(indexes: seq<Index>) returns (r: Result<map<nat, DocumentRecord>>)
    ensures r.Success? <==> NoIdTwice(indexes)
    ensures r.Success? ==> r.value == MergedDocuments(indexes)
  {
    var documents: map<nat, DocumentRecord> := map[];
    assert indexes[..0] == [] && indexes[..|indexes|] == indexes;
    for j := 0 to |indexes|
      invariant NoIdTwice(indexes[..j]) && documents == MergedDocuments(indexes[..j])
    {
      PrefixMore(indexes, j);
      if id :| id in indexes[j].documents.Keys && id in documents.Keys {
        IdTwice(indexes, j, id);
        return Failure("duplicate document id");
      }
      NoIdTwiceYet(indexes[..j], indexes[j]);
      documents := documents + indexes[j].documents;
    }
    return Success(documents);
  }

  lemma IdTwice(indexes: seq<Index>, j: nat, id: nat)
    requires j < |indexes| && id in MergedDocuments(indexes[..j]) && id in indexes[j].documents
    ensures !NoIdTwice(indexes)
  {
    var i := OwnerOf(indexes[..j], id);
    assert id in indexes[i].documents;
  }

  lemma NoIdTwiceYet(indexes: seq<Index>, last: Index)
    requires NoIdTwice(indexes) && forall id | id in last.documents :: id !in MergedDocuments(indexes)
    ensures NoIdTwice(indexes + [last])
    ensures MergedDocuments(indexes + [last]) == MergedDocuments(indexes) + last.documents
  {
    MergedKeys(indexes);
    assert (indexes + [last])[..|indexes|] == indexes;
  }

  lemma OwnerOf(indexes: seq<Index>, id: nat) returns (i: nat)
    requires id in MergedDocuments(indexes)
    ensures i < |indexes| && id in indexes[i].documents
  {
    MergedKeys(indexes);
    i :| i < |indexes| && id in indexes[i].documents;
  }

  lemma {:induction false} MergedKeys(indexes: seq<Index>)
    ensures forall id | id in MergedDocuments(indexes) :: exists i :: 0 <= i < |indexes| && id in indexes[i].documents
    ensures forall i, id | 0 <= i < |indexes| && id in indexes[i].documents :: id in MergedDocuments(indexes)
  {
    if indexes != [] {
      var init := indexes[..|indexes| - 1];
      MergedKeys(init);
      forall id | id in MergedDocuments(indexes) ensures exists i :: 0 <= i < |indexes| && id in indexes[i].documents {
        if id in MergedDocuments(init) {
          var i :| 0 <= i < |init| && id in init[i].documents;
          assert id in indexes[i].documents;
        } else {
          assert id in indexes[|indexes| - 1].documents;
        }
      }
    }
  }

  function Gathered(indexes: seq<Index>, t: Term): seq<PostingsList> {
    if indexes == [] then []
    else
      var last := indexes[|indexes| - 1];
      Gathered(indexes[..|indexes| - 1], t) + if t in last.postings then [last.postings[t]] else []
  }

  function Flatten(lists: seq<PostingsList>): seq<Posting> {
    if lists == [] then [] else Flatten(lists[..|lists| - 1]) + lists[|lists| - 1].postings
  }

  lemma {:induction false} GatheredFlattens(indexes: seq<Index>, t: Term)
    ensures Flatten(Gathered(indexes, t)) == MergedPostings(indexes, t)
    ensures Gathered(indexes, t) != [] <==> t in TermsOf(indexes)
  {
    if indexes != [] {
      var init, last := indexes[..|indexes| - 1], indexes[|indexes| - 1];
      GatheredFlattens(init, t);
      if t in last.postings {
        assert Gathered(indexes, t)[..|Gathered(indexes, t)| - 1] == Gathered(init, t);
        assert t in indexes[|indexes| - 1].postings;
      } else {
        assert Gathered(indexes, t) == Gathered(init, t);
        if t in TermsOf(indexes) {
          var i :| 0 <= i < |indexes| && t in indexes[i].postings;
          assert t in init[i].postings;
        }
        if t in TermsOf(init) {
          var i :| 0 <= i < |init| && t in init[i].postings;
          assert t in indexes[i].postings;
        }
      }
    }
  }

  /** For every term its lists in the order of the partial indexes. */
  ghost predicate HasGathered(byTerm: map<Term, seq<PostingsList>>, indexes: seq<Index>) {
    forall t :: (t in byTerm <==> Gathered(indexes, t) != []) && (t in byTerm ==> byTerm[t] == Gathered(indexes, t))
  }

  lemma GatheredMore(byTerm: map<Term, seq<PostingsList>>, indexes: seq<Index>, last: Index,
                     more: map<Term, seq<PostingsList>>)
    requires HasGathered(byTerm, indexes)
    requires forall t :: t in more <==> t in byTerm || t in last.postings
    requires forall t | t in more ::
               more[t] == (if t in byTerm then byTerm[t] else [])
                   + (if t in last.postings then [last.postings[t]] else [])
    ensures HasGathered(more, indexes + [last])
  {
    assert (indexes + [last])[..|indexes|] == indexes;
    forall t
      ensures t in more <==> Gathered(indexes + [last], t) != []
      ensures t in more ==> more[t] == Gathered(indexes + [last], t)
    {
      assert Gathered(indexes + [last], t)
          == Gathered(indexes, t) + if t in last.postings then [last.postings[t]] else [];
    }
  }

  /** `postings_by_term`. */
  method GatherLists(indexes: seq<Index>) returns (byTerm: map<Term, seq<PostingsList>>)
    ensures HasGathered(byTerm, indexes)
  {
    byTerm := map[];
    for j := 0 to |indexes|
      invariant HasGathered(byTerm, indexes[..j])
    {
      var more := AddLists(byTerm, indexes[j].postings);
      GatheredMore(byTerm, indexes[..j], indexes[j], more);
      PrefixMore(indexes, j);
      byTerm := more;
    }
    assert indexes[..|indexes|] == indexes;
  }

  method AddLists(byTerm: map<Term, seq<PostingsList>>, lists: map<Term, PostingsList>)
      returns (r: map<Term, seq<PostingsList>>)
    ensures forall t :: t in r <==> t in byTerm || t in lists
    ensures forall t | t in r ::
              r[t] == (if t in byTerm then byTerm[t] else []) + (if t in lists then [lists[t]] else [])
  {
    r := byTerm;
    var todo := lists.Keys;
    while todo != {}
      invariant todo <= lists.Keys
      invariant forall t :: t in r <==> t in byTerm || t in lists.Keys - todo
      invariant forall t | t in r ::
                  r[t] == (if t in byTerm then byTerm[t] else []) + (if t in lists.Keys - todo then [lists[t]] else [])
    {
      var t :| t in todo;
      r := r[t := (if t in r then r[t] else []) + [lists[t]]];
      todo := todo - {t};
    }
  }

  method ConcatenateLists(lists: seq<PostingsList>) returns (postings: seq<Posting>)
    ensures postings == Flatten(lists)
  {
    postings := [];
    for i := 0 to |lists|
      invariant postings == Flatten(lists[..i])
    {
      assert lists[..i + 1][..i] == lists[..i];
      postings := postings + lists[i].postings;
    }
    assert lists[..|lists|] == lists;
  }

  method MergeLists(indexes: seq<Index>) returns (lists: map<Term, PostingsList>)
    ensures lists == Merged(indexes).postings
  {
    var byTerm := GatherLists(indexes);
    lists := map[];
    var todo := byTerm.Keys;
    while todo != {}
      invariant todo <= byTerm.Keys && lists.Keys == byTerm.Keys - todo
      invariant forall t | t in lists :: lists[t] == PostingsList(t, |Flatten(byTerm[t])|, Flatten(byTerm[t]))
    {
      var t :| t in todo;
      var postings := ConcatenateLists(byTerm[t]);
      lists := lists[t := PostingsList(t, |postings|, postings)];
      todo := todo - {t};
    }
    FlattenedIsMerged(indexes, byTerm, lists);
  }

  lemma ListIsMerged(indexes: seq<Index>, byTerm: map<Term, seq<PostingsList>>, lists: map<Term, PostingsList>, t: Term)
    requires HasGathered(byTerm, indexes) && lists.Keys == byTerm.Keys
    requires t in lists ==> lists[t] == PostingsList(t, |Flatten(byTerm[t])|, Flatten(byTerm[t]))
    ensures t in lists <==> t in Merged(indexes).postings
    ensures t in lists ==> lists[t] == Merged(indexes).postings[t]
  {
    GatheredFlattens(indexes, t);
    assert t in lists <==> t in byTerm;
  }

  lemma EachListIsMerged(indexes: seq<Index>, byTerm: map<Term, seq<PostingsList>>, lists: map<Term, PostingsList>)
    requires HasGathered(byTerm, indexes) && lists.Keys == byTerm.Keys
    requires forall t | t in lists :: lists[t] == PostingsList(t, |Flatten(byTerm[t])|, Flatten(byTerm[t]))
    ensures SameLists(lists, Merged(indexes).postings)
  {
    forall t ensures SameAt(lists, Merged(indexes).postings, t) { ListIsMerged(indexes, byTerm, lists, t); }
  }

  ghost predicate SameAt(a: map<Term, PostingsList>, b: map<Term, PostingsList>, t: Term) {
    (t in a <==> t in b) && (t in a ==> a[t] == b[t])
  }

  ghost predicate SameLists(a: map<Term, PostingsList>, b: map<Term, PostingsList>) {
    forall t :: SameAt(a, b, t)
  }

  lemma SameListsAreEqual(a: map<Term, PostingsList>, b: map<Term, PostingsList>)
    requires SameLists(a, b)
    ensures a == b
  {
    forall t ensures (t in a <==> t in b) && (t in a ==> a[t] == b[t]) { assert SameAt(a, b, t); }
  }

  lemma FlattenedIsMerged(indexes: seq<Index>, byTerm: map<Term, seq<PostingsList>>, lists: map<Term, PostingsList>)
    requires HasGathered(byTerm, indexes) && lists.Keys == byTerm.Keys
    requires forall t | t in lists :: lists[t] == PostingsList(t, |Flatten(byTerm[t])|, Flatten(byTerm[t]))
    ensures lists == Merged(indexes).postings
  {
    EachListIsMerged(indexes, byTerm, lists);
    SameListsAreEqual(lists, Merged(indexes).postings);
  }

  /** Refuses indexes that are out of order; otherwise merges without a comparison, and meets no id twice. */
  method MergePartitionIndexes(indexes: seq<Index>) returns (r: Result<Index>)
    ensures r.Success? <==> Increasing(indexes)
    ensures r.Success? ==> r.value == Merged(indexes)
  {
    var ordered := EnsureStrictlyIncreasingRanges(indexes);
    if ordered.Failure? { return Failure(ordered.error); }
    IncreasingMeetsNoIdTwice(indexes);
    var documents := UnionDocuments(indexes);
    var lists := MergeLists(indexes);
    var stats := ComputeStats(documents.value, lists);
    return Success(Index(documents.value, lists, stats));
  }

  /** So the check for duplicate ids after the range check never fires. */
  lemma IncreasingMeetsNoIdTwice(indexes: seq<Index>)
    requires Increasing(indexes)
    ensures NoIdTwice(indexes)
  {
  }

  ghost predicate WellFormed(index: Index) {
    forall t | t in index.postings :: var postings := index.postings[t].postings;
      && (forall i | 0 <= i < |postings| :: postings[i].docId in index.documents)
      && (forall i, k | 0 <= i < k < |postings| :: postings[i].docId < postings[k].docId)
  }

  ghost predicate AscendingIn(postings: seq<Posting>, ids: set<nat>) {
    && (forall i | 0 <= i < |postings| :: postings[i].docId in ids)
    && (forall i, k | 0 <= i < k < |postings| :: postings[i].docId < postings[k].docId)
  }

  lemma AscendingAppends(a: seq<Posting>, b: seq<Posting>, ids: set<nat>, more: set<nat>)
    requires AscendingIn(a, ids) && AscendingIn(b, more)
    requires forall x, y | x in ids && y in more :: x < y
    ensures AscendingIn(a + b, ids + more)
  {
  }

  /** After the range check, concatenating is as good as merging: the postings of every term ascend. */
  lemma {:induction false} MergedPostingsAscend(indexes: seq<Index>, t: Term)
    requires Increasing(indexes) && forall i | 0 <= i < |indexes| :: WellFormed(indexes[i])
    ensures AscendingIn(MergedPostings(indexes, t), MergedDocuments(indexes).Keys)
  {
    if indexes != [] {
      var init, last := indexes[..|indexes| - 1], indexes[|indexes| - 1];
      assert WellFormed(last);
      MergedPostingsAscend(init, t);
      forall a, b | a in MergedDocuments(init).Keys && b in last.documents.Keys ensures a < b {
        var i := OwnerOf(init, a);
        assert a in indexes[i].documents && b in indexes[|indexes| - 1].documents;
      }
      AscendingAppends(MergedPostings(init, t), PostingsIn(last, t), MergedDocuments(init).Keys, last.documents.Keys);
      assert MergedDocuments(indexes).Keys == MergedDocuments(init).Keys + last.documents.Keys;
    }
  }

  // ------------------------------------------------------------------------------ partitions and the whole

  function Concat<T>(parts: seq<seq<T>>): seq<T> {
    if parts == [] then [] else Concat(parts[..|parts| - 1]) + parts[|parts| - 1]
  }

  /** What the map step makes of partition `i`: its own build, shifted to where the partitions before it end. */
  function PartialIndex(parts: seq<seq<Analysed>>, i: nat): Index
    requires i < |parts|
  {
    BuildFrom(parts[i], |Concat(parts[..i])|)
  }

  function PartialIndexes(parts: seq<seq<Analysed>>): seq<Index> {
    seq(|parts|, i requires 0 <= i < |parts| => PartialIndex(parts, i))
  }

  lemma PartialIndexesPrefix(parts: seq<seq<Analysed>>)
    requires parts != []
    ensures PartialIndexes(parts)[..|parts| - 1] == PartialIndexes(parts[..|parts| - 1])
  {
    var init := parts[..|parts| - 1];
    forall i | 0 <= i < |init| ensures PartialIndex(parts, i) == PartialIndex(init, i) {
      assert init[..i] == parts[..i];
    }
  }

  lemma {:induction false} ConcatGrows<T>(parts: seq<seq<T>>, i: nat, k: nat)
    requires i < k <= |parts|
    ensures |Concat(parts[..i])| + |parts[i]| <= |Concat(parts[..k])|
  {
    assert parts[..k][..k - 1] == parts[..k - 1];
    if i < k - 1 { ConcatGrows(parts, i, k - 1); }
  }

  lemma PartialIndexesIncrease(parts: seq<seq<Analysed>>)
    ensures Increasing(PartialIndexes(parts))
  {
    var all := PartialIndexes(parts);
    forall i, k, a, b | 0 <= i < k < |all| && a in all[i].documents && b in all[k].documents ensures a < b {
      ConcatGrows(parts, i, k);
    }
  }

  lemma RecordsAppend(a: seq<Analysed>, b: seq<Analysed>, base: nat)
    ensures Records(a + b, base) == Records(a, base) + Records(b, base + |a|)
  {
  }

  lemma OneMoreIndex(indexes: seq<Index>, last: Index, t: Term)
    ensures MergedDocuments(indexes + [last]) == MergedDocuments(indexes) + last.documents
    ensures MergedPostings(indexes + [last], t) == MergedPostings(indexes, t) + PostingsIn(last, t)
  {
    assert (indexes + [last])[..|indexes|] == indexes;
  }

  /** What a build has of a term. */
  lemma BuildHas(docs: seq<Analysed>, base: nat, t: Term)
    ensures BuildFrom(docs, base).documents == Records(docs, base)
    ensures PostingsIn(BuildFrom(docs, base), t) == Postings(docs, t, base)
  {
    if t !in Vocabulary(docs) { UnknownTermsHaveNoPostings(docs, t, base); }
  }

  lemma DocumentsOfOneMore(indexes: seq<Index>, docs: seq<Analysed>, last: seq<Analysed>, x: Index)
    requires MergedDocuments(indexes) == Records(docs, 0) && x.documents == Records(last, |docs|)
    ensures MergedDocuments(indexes + [x]) == Records(docs + last, 0)
  {
    OneMoreIndex(indexes, x, "");
    RecordsAppend(docs, last, 0);
  }

  lemma {:induction false} DocumentsMerge(parts: seq<seq<Analysed>>)
    ensures MergedDocuments(PartialIndexes(parts)) == Records(Concat(parts), 0)
  {
    if parts == [] {
      assert Records(Concat(parts), 0) == map[];
    } else {
      DocumentsMerge(parts[..|parts| - 1]);
      PartialIndexesSplit(parts);
      var docs, last := Concat(parts[..|parts| - 1]), parts[|parts| - 1];
      BuildHas(last, |docs|, "");
      DocumentsOfOneMore(PartialIndexes(parts[..|parts| - 1]), docs, last, BuildFrom(last, |docs|));
    }
  }

  lemma PostingsOfOneMore(indexes: seq<Index>, docs: seq<Analysed>, last: seq<Analysed>, x: Index, t: Term)
    requires MergedPostings(indexes, t) == Postings(docs, t, 0)
    requires PostingsIn(x, t) == Postings(last, t, |docs|)
    ensures MergedPostings(indexes + [x], t) == Postings(docs + last, t, 0)
  {
    OneMoreIndex(indexes, x, t);
    PostingsAppend(docs, last, t, 0);
  }

  lemma {:induction false} PostingsMerge(parts: seq<seq<Analysed>>, t: Term)
    ensures MergedPostings(PartialIndexes(parts), t) == Postings(Concat(parts), t, 0)
  {
    if parts != [] {
      PostingsMerge(parts[..|parts| - 1], t);
      PartialIndexesSplit(parts);
      var docs, last := Concat(parts[..|parts| - 1]), parts[|parts| - 1];
      BuildHas(last, |docs|, t);
      PostingsOfOneMore(PartialIndexes(parts[..|parts| - 1]), docs, last, BuildFrom(last, |docs|), t);
    }
  }

  lemma {:induction false} TermsMerge(parts: seq<seq<Analysed>>)
    ensures TermsOf(PartialIndexes(parts)) == Vocabulary(Concat(parts))
  {
    if parts != [] {
      var init, last := parts[..|parts| - 1], parts[|parts| - 1];
      TermsMerge(init);
      VocabularyAppends(Concat(init), last);
      PartialIndexesSplit(parts);
      TermsOfAppends(PartialIndexes(init), BuildFrom(last, |Concat(init)|));
      assert BuildFrom(last, |Concat(init)|).postings.Keys == Vocabulary(last);
    }
  }

  lemma PartialIndexesSplit(parts: seq<seq<Analysed>>)
    requires parts != []
    ensures var init := parts[..|parts| - 1];
            PartialIndexes(parts) == PartialIndexes(init) + [BuildFrom(parts[|parts| - 1], |Concat(init)|)]
  {
    PartialIndexesPrefix(parts);
    assert PartialIndexes(parts)[|parts| - 1] == PartialIndex(parts, |parts| - 1);
  }

  lemma TermsOfAppends(indexes: seq<Index>, last: Index)
    ensures TermsOf(indexes + [last]) == TermsOf(indexes) + last.postings.Keys
  {
    var all := indexes + [last];
    forall t | t in TermsOf(indexes) ensures t in TermsOf(all) {
      var i :| 0 <= i < |indexes| && t in indexes[i].postings;
      assert t in all[i].postings;
    }
    forall t | t in last.postings ensures t in TermsOf(all) {
      assert t in all[|indexes|].postings;
    }
  }

  lemma RecordCount(docs: seq<Analysed>, base: nat)
    ensures |Records(docs, base)| == |docs|
  {
    IdCount(base, |docs|);
    assert Records(docs, base).Keys == Ids(base, |docs|);
  }

  lemma {:induction false} IdCount(base: nat, n: nat)
    ensures |Ids(base, n)| == n
  {
    if n > 0 { IdCount(base, n - 1); }
  }

  /** The recomputed statistics are those of one pass over all documents. */
  lemma StatsMerge(docs: seq<Analysed>)
    ensures StatsOfMerged(Records(docs, 0), Lists(docs, 0)) == StatsOf(docs)
  {
    RecordCount(docs, 0);
    LengthsCountedBothWays(docs, 0);
    PostingsCountedBothWays(docs, Vocabulary(docs), 0);
    assert ListSizes(Lists(docs, 0)) == PostingCounts(docs, Vocabulary(docs), 0);
    assert Lists(docs, 0).Keys == Vocabulary(docs);
  }

  /**
   Building every partition by itself, shifting its ids and merging gives exactly the index of one build over all
   documents: the same records, the same postings and frequencies for every term, the same statistics.
   */
  lemma MapReduceIsOneBuild(parts: seq<seq<Analysed>>)
    ensures Increasing(PartialIndexes(parts))
    ensures Merged(PartialIndexes(parts)) == Build(Concat(parts))
  {
    var all, docs := PartialIndexes(parts), Concat(parts);
    PartialIndexesIncrease(parts);
    DocumentsMerge(parts);
    TermsMerge(parts);
    forall t ensures MergedPostings(all, t) == Postings(docs, t, 0) { PostingsMerge(parts, t); }
    assert Merged(all).postings == Lists(docs, 0);
    StatsMerge(docs);
  }
}
