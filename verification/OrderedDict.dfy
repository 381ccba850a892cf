/**
 Python's `dict` where its insertion order matters: a list of entries with distinct keys, oldest first.
 `pop` followed by assignment moves a key to the end.
 */
module OrderedDict {
  import opened Wrappers

  datatype Entry<K, V> = Entry(key: K, value: V)

  type Dict<K, V> = seq<Entry<K, V>>

  ghost predicate Unique<K, V>(d: Dict<K, V>) {
    forall i, j | 0 <= i < j < |d| :: d[i].key != d[j].key
  }

  function Keys<K(==), V>(d: Dict<K, V>): set<K> {
    set i | 0 <= i < |d| :: d[i].key
  }

  function Lookup<K(==), V>(d: Dict<K, V>, k: K): Option<V> {
    if d == [] then None else if d[0].key == k then Some(d[0].value) else Lookup(d[1..], k)
  }

  /** `d.pop(k, None)` */
  function Remove<K(==), V>(d: Dict<K, V>, k: K): Dict<K, V> {
    if d == [] then [] else if d[0].key == k then d[1..] else [d[0]] + Remove(d[1..], k)
  }

  /** `d.pop(k, None); d[k] = v` */
  function MoveToEnd<K(==), V>(d: Dict<K, V>, k: K, v: V): Dict<K, V> {
    Remove(d, k) + [Entry(k, v)]
  }

  lemma {:induction false} LookupIsMember<K, V>(d: Dict<K, V>, k: K)
    requires Unique(d)
    ensures match Lookup(d, k)
            case Some(v) => Entry(k, v) in d
            case None => forall e | e in d :: e.key != k
    ensures forall v :: Entry(k, v) in d ==> Lookup(d, k) == Some(v)
  {
    if d != [] {
      assert d == [d[0]] + d[1..];
      LookupIsMember(d[1..], k);
      if d[0].key == k {
        forall e | e in d[1..] ensures e.key != k { var j :| 0 <= j < |d[1..]| && d[1..][j] == e; }
      }
    }
  }

  lemma {:induction false} RemoveMembers<K, V>(d: Dict<K, V>, k: K)
    requires Unique(d)
    ensures forall e | e in Remove(d, k) :: e in d && e.key != k
    ensures forall e | e in d && e.key != k :: e in Remove(d, k)
    ensures Unique(Remove(d, k))
    ensures |Remove(d, k)| == if Lookup(d, k).Some? then |d| - 1 else |d|
  {
    if d != [] {
      var tail := d[1..];
      assert d == [d[0]] + tail;
      RemoveMembers(tail, k);
      var r := Remove(tail, k);
      forall e | e in tail ensures e.key != d[0].key { var j :| 0 <= j < |tail| && tail[j] == e; }
      forall i | 0 <= i < |r| ensures r[i].key != d[0].key {
        assert r[i] in r;
      }
      assert d[0].key != k ==> Remove(d, k) == [d[0]] + r;
    }
  }

  lemma MoveToEndMembers<K, V>(d: Dict<K, V>, k: K, v: V)
    requires Unique(d)
    ensures Unique(MoveToEnd(d, k, v))
    ensures forall e :: e in MoveToEnd(d, k, v) <==> e == Entry(k, v) || (e in d && e.key != k)
    ensures |MoveToEnd(d, k, v)| == if Lookup(d, k).Some? then |d| else |d| + 1
    ensures forall j :: Lookup(MoveToEnd(d, k, v), j) == if j == k then Some(v) else Lookup(d, j)
  {
    RemoveMembers(d, k);
    var r := MoveToEnd(d, k, v);
    forall i | 0 <= i < |r| - 1 ensures r[i].key != k {
      var e := Remove(d, k)[i];
      assert e in Remove(d, k);
    }
    assert Unique(r);
    forall j ensures Lookup(r, j) == if j == k then Some(v) else Lookup(d, j) {
      LookupIsMember(r, j);
      LookupIsMember(d, j);
      assert Entry(k, v) in r;
    }
  }
}
