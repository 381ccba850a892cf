/**
 The in-memory cache store: entries expire, and beyond a bound the least recently used one goes
 (src/beacon_scale_infra/cache/memory.py). The clock is read where the program reads it, and never goes back.
 */
module CacheStore {
  import opened Wrappers
  import opened Collections
  import opened OrderedDict

  datatype CacheEntry = CacheEntry(value: string, expiresAt: int)

  type Entries = Dict<string, CacheEntry>     // least recently used first

  /** What has happened so far: keys in the order in which they were set or hit, the last entry set for each key. */
  datatype History = History(touches: seq<string>, lastSet: map<string, CacheEntry>, clock: int)

  /** The other keys that were set or hit since `key` last was. */
  function Since(touches: seq<string>, key: string): set<string> {
    if touches == [] then {}
    else
      var last := touches[|touches| - 1];
      if last == key then {} else Since(touches[..|touches| - 1], key) + {last}
  }

  lemma SinceMore(touches: seq<string>, touched: string, key: string)
    ensures Since(touches + [touched], key) == if touched == key then {} else Since(touches, key) + {touched}
  {
    assert (touches + [touched])[..|touches|] == touches;
  }

  lemma {:induction false} SinceIsOthers(touches: seq<string>, key: string)
    ensures key !in Since(touches, key)
    ensures forall k | k in Since(touches, key) :: k in touches
  {
    if touches != [] {
      assert touches == touches[..|touches| - 1] + [touches[|touches| - 1]];
      SinceIsOthers(touches[..|touches| - 1], key);
    }
  }

  /** Entries stand in the order in which they were last set or hit. */
  ghost predicate InOrder(d: Entries, touches: seq<string>) {
    forall i, j | 0 <= i < j < |d| :: d[j].key in Since(touches, d[i].key)
  }

  /** `key` is gone because it has expired, or because `max` other keys have been used since it was. */
  ghost predicate RightlyGone(max: nat, h: History, key: string) {
    key in h.lastSet && (h.lastSet[key].expiresAt <= h.clock || |Since(h.touches, key)| >= max)
  }

  ghost predicate Current(d: Entries, h: History) {
    forall e | e in d :: e.key in h.lastSet && h.lastSet[e.key] == e.value
  }

  ghost predicate Accounted(max: nat, d: Entries, h: History) {
    forall k | k in h.lastSet :: RightlyGone(max, h, k) || exists e :: e in d && e.key == k
  }

  ghost predicate Inv(max: nat, d: Entries, h: History) {
    Unique(d) && InOrder(d, h.touches) && Current(d, h) && Accounted(max, d, h)
  }

  // ---------------------------------------------------------------------------------- using an entry

  function Touched(h: History, key: string, now: int): History {
    h.(touches := h.touches + [key], clock := now)
  }

  function Stored(h: History, key: string, entry: CacheEntry, now: int): History {
    History(h.touches + [key], h.lastSet[key := entry], now)
  }

  lemma GoneStaysGone(max: nat, h: History, touched: string, lastSet: map<string, CacheEntry>, now: int, key: string)
    requires RightlyGone(max, h, key) && touched != key && now >= h.clock
    requires key in lastSet && lastSet[key] == h.lastSet[key]
    ensures RightlyGone(max, History(h.touches + [touched], lastSet, now), key)
  {
    SinceMore(h.touches, touched, key);
    SubsetIsNoLarger(Since(h.touches, key), Since(h.touches + [touched], key));
  }

  lemma MovedIsInOrder(d: Entries, touches: seq<string>, key: string, entry: CacheEntry)
    requires Unique(d) && InOrder(d, touches)
    ensures InOrder(MoveToEnd(d, key, entry), touches + [key])
  {
    var rest := Remove(d, key);
    RemovedIsInOrder(d, touches, key);
    RemoveMembers(d, key);
    var all := MoveToEnd(d, key, entry);
    forall i, j | 0 <= i < j < |all| ensures all[j].key in Since(touches + [key], all[i].key) {
      assert rest[i] in rest;
      SinceMore(touches, key, all[i].key);
    }
  }

  lemma {:induction false} RemovedIsInOrder(d: Entries, touches: seq<string>, key: string)
    requires InOrder(d, touches)
    ensures InOrder(Remove(d, key), touches)
    ensures forall e | e in Remove(d, key) :: e in d
  {
    if d != [] {
      var tail := d[1..];
      assert d == [d[0]] + tail;
      assert InOrder(tail, touches);
      RemovedIsInOrder(tail, touches, key);
      var r := Remove(tail, key);
      forall j | 0 <= j < |r| ensures r[j].key in Since(touches, d[0].key) {
        assert r[j] in tail;
        var n :| 0 <= n < |tail| && tail[n] == r[j];
        assert d[n + 1] == r[j];
      }
    }
  }

  /** Setting a key, and hitting one that was last set to `entry`. */
  lemma UsingKeepsInv(max: nat, d: Entries, h: History, key: string, entry: CacheEntry, now: int)
    requires Inv(max, d, h) && now >= h.clock
    ensures Inv(max, MoveToEnd(d, key, entry), Stored(h, key, entry, now))
  {
    var d', h' := MoveToEnd(d, key, entry), Stored(h, key, entry, now);
    MoveToEndMembers(d, key, entry);
    MovedIsInOrder(d, h.touches, key, entry);
    forall k | k in h'.lastSet ensures RightlyGone(max, h', k) || exists e :: e in d' && e.key == k {
      if k == key {
        assert Entry(key, entry) in d';
      } else if RightlyGone(max, h, k) {
        GoneStaysGone(max, h, key, h'.lastSet, now, k);
      } else {
        var e :| e in d && e.key == k;
        assert e in d';
      }
    }
  }

  lemma HittingStoresNothing(d: Entries, h: History, key: string, now: int)
    requires Unique(d) && Current(d, h) && Lookup(d, key).Some?
    ensures Touched(h, key, now) == Stored(h, key, Lookup(d, key).value, now)
  {
    LookupIsMember(d, key);
    assert h.lastSet[key := h.lastSet[key]] == h.lastSet;
  }

  // ------------------------------------------------------------------------------- dropping an entry

  lemma TimePasses(max: nat, d: Entries, h: History, now: int)
    requires Inv(max, d, h) && now >= h.clock
    ensures Inv(max, d, h.(clock := now))
  {
    forall k | k in h.lastSet ensures RightlyGone(max, h.(clock := now), k) || exists e :: e in d && e.key == k {
      if RightlyGone(max, h, k) { assert RightlyGone(max, h.(clock := now), k); }
    }
  }

  /** An entry may be dropped once it has expired, or while it is the oldest of more than `max`. */
  lemma DroppingKeepsInv(max: nat, d: Entries, h: History, e: Entry<string, CacheEntry>)
    requires Inv(max, d, h) && e in d
    requires e.value.expiresAt <= h.clock || (|d| > max && d[0] == e)
    ensures Inv(max, Remove(d, e.key), h)
  {
    var d' := Remove(d, e.key);
    RemoveMembers(d, e.key);
    RemovedIsInOrder(d, h.touches, e.key);
    if e.value.expiresAt > h.clock { OldestIsLongUnused(max, d, h, e); }
    forall k | k in h.lastSet ensures RightlyGone(max, h, k) || exists x :: x in d' && x.key == k {
      if k == e.key {
        assert h.lastSet[k] == e.value;
      } else if !RightlyGone(max, h, k) {
        var x :| x in d && x.key == k;
        assert x in d';
      }
    }
  }

  lemma OldestIsLongUnused(max: nat, d: Entries, h: History, e: Entry<string, CacheEntry>)
    requires Unique(d) && InOrder(d, h.touches) && |d| > max && d[0] == e
    ensures |Since(h.touches, e.key)| >= max
  {
    var others := d[1..];
    KeyCount(others);
    forall k | k in Keys(others) ensures k in Since(h.touches, e.key) {
      var i :| 0 <= i < |others| && others[i].key == k;
      assert d[i + 1].key in Since(h.touches, d[0].key);
    }
    SubsetIsNoLarger(Keys(others), Since(h.touches, e.key));
  }

  lemma {:induction false} KeyCount(d: Entries)
    requires Unique(d)
    ensures |Keys(d)| == |d|
  {
    if d != [] {
      KeyCount(d[1..]);
      assert Keys(d) == {d[0].key} + Keys(d[1..]) by {
        forall k | k in Keys(d) ensures k in {d[0].key} + Keys(d[1..]) {
          var i :| 0 <= i < |d| && d[i].key == k;
          if i > 0 { assert d[1..][i - 1].key == k; }
        }
        forall k | k in Keys(d[1..]) ensures k in Keys(d) {
          var i :| 0 <= i < |d[1..]| && d[1..][i].key == k;
          assert d[i + 1].key == k;
        }
      }
    }
  }

  /** An entry that was set is found, as long as it has not expired and fewer than `max` other keys were used since. */
  lemma FoundUnlessGone(max: nat, d: Entries, h: History, key: string)
    requires Inv(max, d, h) && key in h.lastSet
    requires h.lastSet[key].expiresAt > h.clock && |Since(h.touches, key)| < max
    ensures Lookup(d, key) == Some(h.lastSet[key])
  {
    var e :| e in d && e.key == key;
    LookupIsMember(d, key);
    assert e == Entry(key, h.lastSet[key]);
  }

  // ---------------------------------------------------------------------------------------- the store

  /** What is left of `d` once everything that has expired by `now` is deleted. */
  function Unexpired(d: Entries, now: int): Entries {
    if d == [] then []
    else Unexpired(d[..|d| - 1], now) + if d[|d| - 1].value.expiresAt > now then [d[|d| - 1]] else []
  }

  class InMemoryCacheStore {
    const maxEntries: nat
    var entries: Entries
    ghost var history: History

    constructor (maxEntries: nat, now: int)
      requires maxEntries > 0
      ensures this.maxEntries == maxEntries && Valid() && entries == [] && history == History([], map[], now)
    {
      this.maxEntries, entries, history := maxEntries, [], History([], map[], now);
    }

    ghost predicate Valid()
      reads this
    {
      maxEntries > 0 && |entries| <= maxEntries && Inv(maxEntries, entries, history)
    }

    /**
     Only ever the last value set, before it expires; and nothing only if that has expired or has long been unused.
     */
    method Get(key: string, now: int) returns (value: Option<string>)
      requires Valid() && now >= history.clock
      modifies this
      ensures Valid() && history.lastSet == old(history.lastSet)
      ensures value.Some? ==>
                && key in history.lastSet && now < history.lastSet[key].expiresAt
                && value.value == history.lastSet[key].value
                && history == Touched(old(history), key, now)
      ensures value.None? && key in history.lastSet ==>
                history.lastSet[key].expiresAt <= now || |Since(old(history.touches), key)| >= maxEntries
      ensures value.None? ==> history.touches == old(history.touches)
      ensures match old(Lookup(entries, key))
              case None => value == None && entries == old(entries)
              case Some(e) => if now >= e.expiresAt then value == None && entries == Remove(old(entries), key)
                              else value == Some(e.value) && entries == MoveToEnd(old(entries), key, e)
    {
      var found := Lookup(entries, key);
      LookupIsMember(entries, key);
      if found.None? {
        assert key in history.lastSet ==> RightlyGone(maxEntries, history, key);
        return None;
      }
      var entry := found.value;
      assert Entry(key, entry) in entries;
      if now >= entry.expiresAt {
        TimePasses(maxEntries, entries, history, now);
        RemoveMembers(entries, key);
        DroppingKeepsInv(maxEntries, entries, history.(clock := now), Entry(key, entry));
        history := history.(clock := now);
        entries := Remove(entries, key);
        return None;
      }
      HittingStoresNothing(entries, history, key, now);
      UsingKeepsInv(maxEntries, entries, history, key, entry, now);
      MoveToEndMembers(entries, key, entry);
      history := Touched(history, key, now);
      entries := MoveToEnd(entries, key, entry);
      return Some(entry.value);
    }

    /** `now` is read for the new entry, and `later` if there is one entry too many. */
    method Set(key: string, value: string, ttl: int, now: int, later: int) returns (r: Result<()>)
      requires Valid() && history.clock <= now <= later
      modifies this
      ensures Valid()
      ensures r.Failure? <==> ttl <= 0
      ensures r.Failure? ==> entries == old(entries) && history == old(history)
      ensures r.Success? ==>
                && history.lastSet == old(history.lastSet)[key := CacheEntry(value, now + ttl)]
                && history.touches == old(history.touches) + [key]
                && entries == Evicted(MoveToEnd(old(entries), key, CacheEntry(value, now + ttl)), maxEntries, later)
    {
      if ttl <= 0 { return Failure("ttl_seconds must be positive"); }
      var entry := CacheEntry(value, now + ttl);
      UsingKeepsInv(maxEntries, entries, history, key, entry, now);
      MoveToEndMembers(entries, key, entry);
      entries := MoveToEnd(entries, key, entry);
      history := Stored(history, key, entry, now);
      EvictIfNeeded(later);
      return Success(());
    }

    method EvictIfNeeded(now: int)
      requires maxEntries > 0 && Inv(maxEntries, entries, history) && now >= history.clock
      modifies this
      ensures Valid()
      ensures entries == Evicted(old(entries), maxEntries, now)
      ensures EvictsExpiredFirst(old(entries), maxEntries, now, entries)
      ensures history == old(history).(clock := history.clock) && history.clock >= old(history.clock)
    {
      EvictedExpiredFirst(entries, maxEntries, now);
      if |entries| <= maxEntries { return; }
      TimePasses(maxEntries, entries, history, now);
      history := history.(clock := now);
      var left := DeleteExpired(entries, history, maxEntries, now);
      entries := DropOldest(left, history, maxEntries);
    }
  }

  method DropOldest(d: Entries, ghost h: History, max: nat) returns (left: Entries)
    requires Inv(max, d, h)
    ensures left == Newest(d, max) && |left| <= max && Inv(max, left, h)
  {
    left := d;
    while |left| > max
      invariant Inv(max, left, h) && Newest(left, max) == Newest(d, max)
    {
      assert left[0] in left && Remove(left, left[0].key) == left[1..];
      DroppingKeepsInv(max, left, h, left[0]);
      left := left[1..];
    }
  }

  function Newest(d: Entries, max: nat): Entries {
    if |d| <= max then d else d[|d| - max..]
  }

  function Evicted(d: Entries, max: nat, now: int): Entries {
    if |d| <= max then d else Newest(Unexpired(d, now), max)
  }

  /** Beyond the bound whatever has expired goes first, and nothing else goes unless the store is then full. */
  ghost predicate EvictsExpiredFirst(d: Entries, max: nat, now: int, left: Entries) {
    && (forall e | e in left :: e in d)
    && (|d| <= max ==> left == d)
    && (|d| > max ==> forall e | e in left :: e.value.expiresAt > now)
    && (forall e | e in d && e.value.expiresAt > now && e !in left :: |left| == max)
  }

  lemma {:induction false} UnexpiredMembers(d: Entries, now: int)
    ensures forall e :: e in Unexpired(d, now) <==> e in d && e.value.expiresAt > now
  {
    if d != [] {
      LastSplit(d);
      UnexpiredMembers(d[..|d| - 1], now);
    }
  }

  lemma EvictedExpiredFirst(d: Entries, max: nat, now: int)
    ensures EvictsExpiredFirst(d, max, now, Evicted(d, max, now))
  {
    UnexpiredMembers(d, now);
  }

  lemma {:induction false} RemoveInside(a: Entries, e: Entry<string, CacheEntry>, b: Entries)
    requires Unique(a + [e] + b)
    ensures Remove(a + [e] + b, e.key) == a + b
  {
    var all := a + [e] + b;
    if a == [] {
      assert all[1..] == b;
    } else {
      assert all[0].key != all[|a|].key;
      assert all[1..] == a[1..] + [e] + b;
      assert Unique(all[1..]);
      RemoveInside(a[1..], e, b);
    }
  }

  lemma UnexpiredMore(d: Entries, now: int, i: nat)
    requires i < |d|
    ensures Unexpired(d[..i + 1], now) == Unexpired(d[..i], now) + if d[i].value.expiresAt > now then [d[i]] else []
    ensures d[..i + 1] == d[..i] + [d[i]] && d[i..] == [d[i]] + d[i + 1..]
  {
    PrefixMore(d, i);
    SuffixMore(d, i);
    assert (d[..i] + [d[i]])[..i] == d[..i];
  }

  lemma DeleteOne(d: Entries, now: int, i: nat, left: Entries)
    requires i < |d| && Unique(left) && left == Unexpired(d[..i], now) + d[i..]
    ensures d[i] in left
    ensures (if now >= d[i].value.expiresAt then Remove(left, d[i].key) else left)
            == Unexpired(d[..i + 1], now) + d[i + 1..]
  {
    var kept, e, rest := Unexpired(d[..i], now), d[i], d[i + 1..];
    UnexpiredMore(d, now, i);
    Associative(kept, [e], rest);
    assert left[|kept|] == e;
    RemoveInside(kept, e, rest);
    assert kept + [] == kept;
  }

  method DeleteExpired(d: Entries, ghost h: History, ghost max: nat, now: int) returns (left: Entries)
    requires Inv(max, d, h) && now == h.clock
    ensures left == Unexpired(d, now) && Inv(max, left, h)
  {
    left := d;
    assert d[0..] == d && d[|d|..] == [] && d[..|d|] == d;
    for i := 0 to |d|
      invariant left == Unexpired(d[..i], now) + d[i..]
      invariant Inv(max, left, h)
    {
      DeleteOne(d, now, i, left);
      if now >= d[i].value.expiresAt {
        DroppingKeepsInv(max, left, h, d[i]);
        left := Remove(left, d[i].key);
      }
    }
    assert Unexpired(d, now) + [] == Unexpired(d, now);
  }
}
