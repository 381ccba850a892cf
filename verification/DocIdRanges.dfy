/**
 Global document ids: each partition gets the range of ids that follows those of the partitions before it, in the
 order of their keys (src/beacon_scale_infra/index/doc_id_ranges.py). The manifest has one entry per partition.
 */
module DocIdRanges {
  import opened Wrappers
  import Lex
  import Bisect

  type Manifest = map<string, nat>     // partition key to document count

  datatype PartitionDocIdRange = PartitionDocIdRange(partitionKey: string, startDocId: nat, endDocId: nat)

  predicate Contains(r: PartitionDocIdRange, docId: int) {
    r.startDocId <= docId < r.endDocId
  }

  function RangeStarts(ranges: seq<PartitionDocIdRange>): seq<nat> {
    seq(|ranges|, i requires 0 <= i < |ranges| => ranges[i].startDocId)
  }

  ghost predicate Valid(ranges: seq<PartitionDocIdRange>) {
    forall i | 0 <= i < |ranges| :: ranges[i].startDocId <= ranges[i].endDocId
  }

  ghost function RangeSizes(ranges: seq<PartitionDocIdRange>): seq<nat>
    requires Valid(ranges)
  {
    seq(|ranges|, i requires 0 <= i < |ranges| => ranges[i].endDocId - ranges[i].startDocId)
  }

  function SizeOf(manifest: Manifest, key: string): nat {
    if key in manifest then manifest[key] else 0
  }

  function Sizes(manifest: Manifest, keys: seq<string>): nat {
    if keys == [] then 0 else Sizes(manifest, keys[..|keys| - 1]) + SizeOf(manifest, keys[|keys| - 1])
  }

  function RangesFor(manifest: Manifest, keys: seq<string>): seq<PartitionDocIdRange> {
    if keys == [] then []
    else
      var init, key := keys[..|keys| - 1], keys[|keys| - 1];
      RangesFor(manifest, init) + RangeAt(key, Sizes(manifest, init), SizeOf(manifest, key))
  }

  function RangeAt(key: string, start: nat, size: nat): seq<PartitionDocIdRange> {
    if size > 0 then [PartitionDocIdRange(key, start, start + size)] else []
  }

  lemma RangesForMore(manifest: Manifest, keys: seq<string>, i: nat)
    requires i < |keys|
    ensures Sizes(manifest, keys[..i + 1]) == Sizes(manifest, keys[..i]) + SizeOf(manifest, keys[i])
    ensures RangesFor(manifest, keys[..i + 1])
            == RangesFor(manifest, keys[..i]) + RangeAt(keys[i], Sizes(manifest, keys[..i]), SizeOf(manifest, keys[i]))
  {
    assert keys[..i + 1][..i] == keys[..i];
  }

  method ComputeDocIdRanges(manifest: Manifest) returns (ranges: seq<PartitionDocIdRange>)
    ensures ranges == RangesFor(manifest, Lex.Sorted(manifest.Keys)) && InKeyOrder(ranges)
  {
    var ordered := Lex.Sort(manifest.Keys);
    RangesFollowSortedKeys(manifest);
    assert forall i | 0 <= i < |ordered| :: ordered[i] in manifest by { Lex.SortedIsSorted(manifest.Keys); }
    ranges := [];
    var offset := 0;
    for i := 0 to |ordered|
      invariant offset == Sizes(manifest, ordered[..i])
      invariant ranges == RangesFor(manifest, ordered[..i])
    {
      RangesForMore(manifest, ordered, i);
      var start, end := offset, offset + manifest[ordered[i]];
      if manifest[ordered[i]] > 0 {
        ranges := ranges + [PartitionDocIdRange(ordered[i], start, end)];
      }
      offset := end;
    }
    assert ordered[..|ordered|] == ordered;
  }

  lemma {:induction false} RangesAreValid(manifest: Manifest, keys: seq<string>)
    ensures Valid(RangesFor(manifest, keys))
  {
    if keys != [] { RangesAreValid(manifest, keys[..|keys| - 1]); }
  }

  lemma OneMoreRange(ranges: seq<PartitionDocIdRange>, key: string, start: nat, size: nat)
    requires Valid(ranges) && Bisect.Contiguous(RangeStarts(ranges), RangeSizes(ranges))
    requires Bisect.Sum(RangeSizes(ranges)) == start
    ensures var more := ranges + [PartitionDocIdRange(key, start, start + size)];
            && Valid(more) && Bisect.Contiguous(RangeStarts(more), RangeSizes(more))
            && Bisect.Sum(RangeSizes(more)) == start + size
  {
    var more := ranges + [PartitionDocIdRange(key, start, start + size)];
    Bisect.ContiguousGrows(RangeStarts(ranges), RangeSizes(ranges), size);
    assert RangeStarts(more) == RangeStarts(ranges) + [start];
    assert RangeSizes(more) == RangeSizes(ranges) + [size];
  }

  /** The ranges are dense and disjoint, from 0 to the number of documents. */
  lemma {:induction false} RangesAreDense(manifest: Manifest, keys: seq<string>)
    ensures var ranges := RangesFor(manifest, keys);
            && Valid(ranges) && Bisect.Contiguous(RangeStarts(ranges), RangeSizes(ranges))
            && Bisect.Sum(RangeSizes(ranges)) == Sizes(manifest, keys)
  {
    if keys != [] {
      var init, key := keys[..|keys| - 1], keys[|keys| - 1];
      RangesAreDense(manifest, init);
      NoRangeOrOne(manifest, init, key);
      if SizeOf(manifest, key) > 0 {
        OneMoreRange(RangesFor(manifest, init), key, Sizes(manifest, init), SizeOf(manifest, key));
      }
    }
  }

  lemma NoRangeOrOne(manifest: Manifest, init: seq<string>, key: string)
    ensures var before, size := RangesFor(manifest, init), SizeOf(manifest, key);
            before + RangeAt(key, Sizes(manifest, init), size)
            == if size > 0
               then before + [PartitionDocIdRange(key, Sizes(manifest, init), Sizes(manifest, init) + size)]
               else before
  {
  }

  /** One range for every partition that has documents, of its size, and none for any other. */
  lemma {:induction false} OneRangeEach(manifest: Manifest, keys: seq<string>)
    ensures forall r | r in RangesFor(manifest, keys) ::
              r.partitionKey in keys && r.endDocId - r.startDocId == SizeOf(manifest, r.partitionKey) > 0
    ensures forall k | k in keys && SizeOf(manifest, k) > 0 ::
              exists r :: r in RangesFor(manifest, keys) && r.partitionKey == k
  {
    if keys != [] {
      var init, key := keys[..|keys| - 1], keys[|keys| - 1];
      OneRangeEach(manifest, init);
      assert keys == init + [key];
      var before, last := RangesFor(manifest, init), RangeAt(key, Sizes(manifest, init), SizeOf(manifest, key));
      forall k | k in keys && SizeOf(manifest, k) > 0
        ensures exists r: PartitionDocIdRange :: r in before + last && r.partitionKey == k
      {
        if k == key {
          assert last[0] in before + last;
        } else {
          var r :| r in before && r.partitionKey == k;
          assert r in before + last;
        }
      }
    }
  }

  /** Partitions are taken in the order of their keys. */
  ghost predicate InKeyOrder(ranges: seq<PartitionDocIdRange>) {
    forall i, k | 0 <= i < k < |ranges| :: Lex.Lt(ranges[i].partitionKey, ranges[k].partitionKey)
  }

  lemma {:induction false} RangesFollowKeys(manifest: Manifest, keys: seq<string>)
    requires Lex.Ascending(keys)
    ensures InKeyOrder(RangesFor(manifest, keys))
  {
    if keys != [] {
      var init, last := keys[..|keys| - 1], keys[|keys| - 1];
      RangesFollowKeys(manifest, init);
      OneRangeEach(manifest, init);
      var before := RangesFor(manifest, init);
      forall i | 0 <= i < |before| ensures Lex.Lt(before[i].partitionKey, last) {
        assert before[i] in before;
        var k :| 0 <= k < |init| && init[k] == before[i].partitionKey;
        assert keys[k] == init[k];
      }
    }
  }

  lemma RangesFollowSortedKeys(manifest: Manifest)
    ensures InKeyOrder(RangesFor(manifest, Lex.Sorted(manifest.Keys)))
  {
    Lex.SortedIsSorted(manifest.Keys);
    RangesFollowKeys(manifest, Lex.Sorted(manifest.Keys));
  }

  ghost predicate DoNotOverlap(ranges: seq<PartitionDocIdRange>) {
    forall i, k | 0 <= i < k < |ranges| :: ranges[i].endDocId <= ranges[k].startDocId
  }

  /**
   The last range that does not start after the id decides. If ranges do not overlap, that is the one the id belongs to;
   if there are no gaps between them either, every id below the total belongs to one, and any other id is an error.
   */
  method PartitionFor(ranges: seq<PartitionDocIdRange>, docId: int) returns (r: Result<string>)
    requires Bisect.Ascending(RangeStarts(ranges))
    ensures r.Success? ==>
              exists i :: 0 <= i < |ranges| && ranges[i].partitionKey == r.value && Contains(ranges[i], docId)
    ensures forall i | Bisect.IsLastUpTo(RangeStarts(ranges), docId, i) ::
              if Contains(ranges[i], docId) then r == Success(ranges[i].partitionKey) else r.Failure?
    ensures DoNotOverlap(ranges) ==>
              forall i | 0 <= i < |ranges| && Contains(ranges[i], docId) :: r == Success(ranges[i].partitionKey)
    ensures Valid(ranges) && Bisect.Contiguous(RangeStarts(ranges), RangeSizes(ranges)) ==>
              (r.Success? <==> 0 <= docId < Bisect.Sum(RangeSizes(ranges)))
  {
    var p := Bisect.BisectRight(RangeStarts(ranges), docId);
    Bisect.LastUpToIsBeforeTheInsertionPoint(RangeStarts(ranges), docId, p);
    if Valid(ranges) && Bisect.Contiguous(RangeStarts(ranges), RangeSizes(ranges)) {
      Bisect.InsertionPointFindsTheRange(RangeStarts(ranges), RangeSizes(ranges), docId, p);
    }
    if DoNotOverlap(ranges) { OnlyOneContains(ranges, docId, p); }
    if p == 0 || !Contains(ranges[p - 1], docId) { return Failure("no range holds this document id"); }
    return Success(ranges[p - 1].partitionKey);
  }

  lemma OnlyOneContains(ranges: seq<PartitionDocIdRange>, docId: int, p: nat)
    requires DoNotOverlap(ranges) && p <= |ranges|
    requires forall i | 0 <= i < p :: RangeStarts(ranges)[i] <= docId
    requires forall i | p <= i < |ranges| :: docId < RangeStarts(ranges)[i]
    ensures forall i | 0 <= i < |ranges| && Contains(ranges[i], docId) :: i == p - 1
  {
    assert forall i | 0 <= i < |ranges| :: RangeStarts(ranges)[i] == ranges[i].startDocId;
    if p > 0 { assert ranges[p - 1].startDocId <= docId; }
  }
}
