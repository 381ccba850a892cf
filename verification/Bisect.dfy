/** Looking a position up among ranges in ascending order. */
module Bisect {

  ghost predicate Ascending(a: seq<nat>) {
    forall i, k | 0 <= i <= k < |a| :: a[i] <= a[k]
  }

  /** `bisect_right`: where `x` would go in after everything that is not greater. */
  method BisectRight(a: seq<nat>, x: int) returns (lo: nat)
    requires Ascending(a)
    ensures lo <= |a|
    ensures forall i | 0 <= i < lo :: a[i] <= x
    ensures forall i | lo <= i < |a| :: x < a[i]
  {
    lo := 0;
    var hi := |a|;
    while lo < hi
      invariant lo <= hi <= |a|
      invariant forall i | 0 <= i < lo :: a[i] <= x
      invariant forall i | hi <= i < |a| :: x < a[i]
    {
      var mid := (lo + hi) / 2;
      if x < a[mid] { hi := mid; } else { lo := mid + 1; }
    }
  }

  /** The last range that does not start after `x`. */
  ghost predicate IsLastUpTo(starts: seq<nat>, x: int, i: int) {
    0 <= i < |starts| && starts[i] <= x && forall k | i < k < |starts| :: x < starts[k]
  }

  lemma LastUpToIsBeforeTheInsertionPoint(starts: seq<nat>, x: int, p: nat)
    requires p <= |starts|
    requires forall i | 0 <= i < p :: starts[i] <= x
    requires forall i | p <= i < |starts| :: x < starts[i]
    ensures forall i | IsLastUpTo(starts, x, i) :: i == p - 1
  {
    if p > 0 { assert starts[p - 1] <= x; }
  }

  /** No range starts before an earlier one is over; there may be gaps between them. */
  ghost predicate Apart(starts: seq<nat>, counts: seq<nat>) {
    |starts| == |counts| && forall i, k | 0 <= i < k < |starts| :: starts[i] + counts[i] <= starts[k]
  }

  function Sum(counts: seq<nat>): nat {
    if counts == [] then 0 else Sum(counts[..|counts| - 1]) + counts[|counts| - 1]
  }

  /** Each range starts where the one before it ends; empty ranges are allowed. */
  ghost predicate Contiguous(starts: seq<nat>, counts: seq<nat>) {
    |starts| == |counts| && forall i | 0 <= i < |starts| :: starts[i] == Sum(counts[..i])
  }

  lemma {:induction false} SumsAscend(counts: seq<nat>, i: nat, k: nat)
    requires i <= k <= |counts|
    ensures Sum(counts[..i]) <= Sum(counts[..k])
    ensures i < k ==> Sum(counts[..i]) + counts[i] <= Sum(counts[..k])
  {
    if i < k {
      assert counts[..k][..k - 1] == counts[..k - 1];
      SumsAscend(counts, i, k - 1);
    }
  }

  lemma ContiguousIsApart(starts: seq<nat>, counts: seq<nat>)
    requires Contiguous(starts, counts)
    ensures Apart(starts, counts)
  {
    forall i, k | 0 <= i < k < |starts| ensures starts[i] + counts[i] <= starts[k] { SumsAscend(counts, i, k); }
  }

  lemma ApartAscends(starts: seq<nat>, counts: seq<nat>)
    requires Apart(starts, counts)
    ensures Ascending(starts)
  {
    forall i, k | 0 <= i < k < |starts| ensures starts[i] <= starts[k] { assert starts[i] + counts[i] <= starts[k]; }
  }

  /** Among ranges that do not overlap the one before the insertion point is the only one that can hold `x`. */
  lemma InsertionPointIsTheOnlyCandidate(starts: seq<nat>, counts: seq<nat>, x: int, p: nat)
    requires Apart(starts, counts) && p <= |starts|
    requires forall i | 0 <= i < p :: starts[i] <= x
    requires forall i | p <= i < |starts| :: x < starts[i]
    ensures forall i | 0 <= i < |starts| && starts[i] <= x < starts[i] + counts[i] :: i == p - 1
  {
    if p > 0 { assert starts[p - 1] <= x; }
  }

  lemma {:induction false} SumAppends(a: seq<nat>, b: seq<nat>)
    ensures Sum(a + b) == Sum(a) + Sum(b)
  {
    if b == [] {
      assert a + b == a;
    } else {
      assert (a + b)[..|a + b| - 1] == a + b[..|b| - 1];
      SumAppends(a, b[..|b| - 1]);
    }
  }

  lemma ContiguousSum(counts: seq<nat>, count: nat)
    ensures Sum(counts + [count]) == Sum(counts) + count
  {
    assert (counts + [count])[..|counts|] == counts;
  }

  lemma ContiguousGrows(starts: seq<nat>, counts: seq<nat>, count: nat)
    requires Contiguous(starts, counts)
    ensures Contiguous(starts + [Sum(counts)], counts + [count])
    ensures Sum(counts + [count]) == Sum(counts) + count
  {
    var more := counts + [count];
    assert more[..|counts|] == counts;
    assert forall i | 0 <= i < |counts| :: more[..i] == counts[..i];
  }

  /** If there are no gaps either, it holds every `x` below the total. */
  lemma InsertionPointFindsTheRange(starts: seq<nat>, counts: seq<nat>, x: int, p: nat)
    requires Contiguous(starts, counts) && p <= |starts|
    requires forall i | 0 <= i < p :: starts[i] <= x
    requires forall i | p <= i < |starts| :: x < starts[i]
    ensures 0 <= x < Sum(counts) <==> p > 0 && x < starts[p - 1] + counts[p - 1]
  {
    assert counts[..|counts|] == counts;
    if p == |starts| {
      if p > 0 { assert counts[..p - 1] == counts[..|counts| - 1]; }
    } else {
      SumsAscend(counts, p, |counts|);
      if p > 0 {
        assert counts[..p][..p - 1] == counts[..p - 1];
        assert starts[p] == starts[p - 1] + counts[p - 1];
      }
    }
  }

  lemma {:induction false} RangeOf(starts: seq<nat>, counts: seq<nat>, x: nat) returns (i: nat)
    requires Contiguous(starts, counts) && x < Sum(counts)
    ensures i < |starts| && starts[i] <= x < starts[i] + counts[i]
  {
    var n := |counts| - 1;
    assert starts[n] == Sum(counts[..n]);
    if x >= starts[n] {
      i := n;
    } else {
      assert forall k | 0 <= k < n :: counts[..n][..k] == counts[..k];
      i := RangeOf(starts[..n], counts[..n], x);
    }
  }
}
