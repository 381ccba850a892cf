/**
 The byte string hashed into a snapshot's version (src/beacon_scale_infra/incremental/snapshot.py:71-80)
 and when it determines what went into it.
 */
module VersionCodec {
  import opened Wrappers
  import Lex

  const NUL := '\0'

  type Entry = (string, string)

  predicate NulFree(s: string) {
    NUL !in s
  }

  /** The digest's input: the manifest, then for every file NUL, its name, NUL and its hash. */
  function Encode(manifest: string, entries: seq<Entry>): string
    decreases |entries|
  {
    if entries == [] then manifest else
      var last := entries[|entries| - 1];
      Encode(manifest, entries[..|entries| - 1]) + [NUL] + last.0 + [NUL] + last.1
  }

  function Push(c: char, fields: seq<string>): seq<string>
    requires fields != []
  {
    if c == NUL then [""] + fields else [[c] + fields[0]] + fields[1..]
  }

  function Split(s: string): (r: seq<string>)
    ensures r != [] && forall i | 0 <= i < |r| :: NulFree(r[i])
  {
    if s == "" then [""] else Push(s[0], Split(s[1..]))
  }

  function Pairs(fields: seq<string>): Option<seq<Entry>> {
    if fields == [] then Some([])
    else if |fields| == 1 then None
    else
      match Pairs(fields[..|fields| - 2])
      case None => None
      case Some(ps) => Some(ps + [(fields[|fields| - 2], fields[|fields| - 1])])
  }

  /** Reads back what `Encode` wrote. */
  function Decode(s: string): Option<(string, seq<Entry>)> {
    var fields := Split(s);
    match Pairs(fields[1..])
    case None => None
    case Some(ps) => Some((fields[0], ps))
  }

  predicate Clean(manifest: string, entries: seq<Entry>) {
    NulFree(manifest) && forall e | e in entries :: NulFree(e.0) && NulFree(e.1)
  }

  lemma {:induction false} SplitOfClean(s: string)
    requires NulFree(s)
    ensures Split(s) == [s]
  {
    if s != "" {
      SplitOfClean(s[1..]);
      assert s == [s[0]] + s[1..];
    }
  }

  lemma {:induction false} SplitAtNul(a: string, b: string)
    ensures Split(a + [NUL] + b) == Split(a) + Split(b)
  {
    if a == "" {
      assert (a + [NUL] + b)[1..] == b && (a + [NUL] + b)[0] == NUL;
      assert [""] + Split(b) == Split(a) + Split(b);
    } else {
      SplitAtNul(a[1..], b);
      assert (a + [NUL] + b)[1..] == a[1..] + [NUL] + b;
      PushConcat(a[0], Split(a[1..]), Split(b));
    }
  }

  lemma PushConcat(c: char, f: seq<string>, g: seq<string>)
    requires f != []
    ensures Push(c, f + g) == Push(c, f) + g
  {
    assert (f + g)[0] == f[0] && (f + g)[1..] == f[1..] + g;
  }

  function Fields(entries: seq<Entry>): seq<string>
    decreases |entries|
  {
    if entries == [] then [] else
      var last := entries[|entries| - 1];
      Fields(entries[..|entries| - 1]) + [last.0, last.1]
  }

  lemma OnePairMore(fields: seq<string>, pairs: seq<Entry>, last: Entry)
    requires Pairs(fields) == Some(pairs)
    ensures Pairs(fields + [last.0, last.1]) == Some(pairs + [last])
  {
    var more := fields + [last.0, last.1];
    assert more[..|more| - 2] == fields;
  }

  lemma {:induction false} PairsOfFields(entries: seq<Entry>)
    ensures Pairs(Fields(entries)) == Some(entries)
    decreases |entries|
  {
    if entries != [] {
      var init, last := entries[..|entries| - 1], entries[|entries| - 1];
      PairsOfFields(init);
      OnePairMore(Fields(init), init, last);
      assert init + [last] == entries;
    }
  }

  lemma {:induction false} SplitOfEncoding(manifest: string, entries: seq<Entry>)
    requires Clean(manifest, entries)
    ensures Split(Encode(manifest, entries)) == [manifest] + Fields(entries)
    decreases |entries|
  {
    if entries == [] {
      SplitOfClean(manifest);
    } else {
      var init, last := entries[..|entries| - 1], entries[|entries| - 1];
      assert last in entries && forall e | e in init :: e in entries;
      SplitOfEncoding(manifest, init);
      var head := Encode(manifest, init);
      SplitOfClean(last.0);
      SplitOfClean(last.1);
      SplitAtNul(head, last.0);
      SplitAtNul(head + [NUL] + last.0, last.1);
      assert [manifest] + Fields(init) + [last.0] + [last.1] == [manifest] + Fields(entries);
    }
  }

  lemma {:induction false} PairsAreFields(fields: seq<string>)
    ensures match Pairs(fields)
            case None => true
            case Some(ps) => forall e | e in ps :: e.0 in fields && e.1 in fields
    decreases |fields|
  {
    if |fields| >= 2 { PairsAreFields(fields[..|fields| - 2]); }
  }

  /** The encoding can be read back exactly when neither the manifest nor an entry contains a NUL. */
  lemma DecodableIffClean(manifest: string, entries: seq<Entry>)
    ensures Decode(Encode(manifest, entries)) == Some((manifest, entries)) <==> Clean(manifest, entries)
  {
    if Clean(manifest, entries) {
      SplitOfEncoding(manifest, entries);
      PairsOfFields(entries);
      assert ([manifest] + Fields(entries))[1..] == Fields(entries);
    }
    if Decode(Encode(manifest, entries)) == Some((manifest, entries)) {
      var fields := Split(Encode(manifest, entries));
      PairsAreFields(fields[1..]);
      assert fields[0] in fields && forall f | f in fields[1..] :: f in fields;
    }
  }

  /** With a NUL inside a manifest, two different snapshots feed the digest the same bytes. */
  lemma NulCollides()
    ensures Encode("a\0b\0c", []) == Encode("a", [("b", "c")])
  {
    assert Encode("a", []) == "a";
    assert Encode("a", [("b", "c")]) == "a" + [NUL] + "b" + [NUL] + "c";
  }

  /** The manifest together with the hash of every file, in the order of `sorted(file_hashes)`. */
  ghost function SnapshotVersion(sha: string -> string, manifest: string, hashes: map<string, string>): string {
    sha(Encode(manifest, EntriesOf(hashes)))
  }

  ghost function EntriesOf(hashes: map<string, string>): seq<Entry> {
    var names := Lex.Sorted(hashes.Keys);
    Lex.SortedIsSorted(hashes.Keys);
    seq(|names|, i requires 0 <= i < |names| => (names[i], hashes[names[i]]))
  }

  ghost predicate CollisionFree(sha: string -> string) {
    forall a, b :: sha(a) == sha(b) ==> a == b
  }

  /** A version determines the manifest and every file's hash, with names a file system can hold. */
  lemma VersionIsContent(sha: string -> string, m1: string, h1: map<string, string>, m2: string,
                         h2: map<string, string>)
    requires CollisionFree(sha)
    requires Clean(m1, EntriesOf(h1)) && Clean(m2, EntriesOf(h2))
    requires SnapshotVersion(sha, m1, h1) == SnapshotVersion(sha, m2, h2)
    ensures m1 == m2 && h1 == h2
  {
    DecodableIffClean(m1, EntriesOf(h1));
    DecodableIffClean(m2, EntriesOf(h2));
    EntriesDetermineMap(h1, h2);
  }

  lemma EntriesDetermineMap(h1: map<string, string>, h2: map<string, string>)
    requires EntriesOf(h1) == EntriesOf(h2)
    ensures h1 == h2
  {
    EntryAt(h1);
    EntryAt(h2);
    forall k | k in h1.Keys + h2.Keys ensures k in h1 && k in h2 && h1[k] == h2[k] {
      if k in h1 { assert (k, h1[k]) in EntriesOf(h2); }
      if k in h2 { assert (k, h2[k]) in EntriesOf(h1); }
    }
  }

  lemma EntryAt(h: map<string, string>)
    ensures forall k, v :: (k, v) in EntriesOf(h) <==> k in h && h[k] == v
  {
    Lex.SortedIsSorted(h.Keys);
    var names, entries := Lex.Sorted(h.Keys), EntriesOf(h);
    forall k, v ensures (k, v) in entries <==> k in h && h[k] == v {
      if k in h && h[k] == v {
        var i :| 0 <= i < |names| && names[i] == k;
        assert entries[i] == (k, v);
      }
    }
  }

  /** `snapshot_version`: the digest is fed name by name. */
  lemma EncodeMore(manifest: string, entries: seq<Entry>, i: nat)
    requires i < |entries|
    ensures Encode(manifest, entries[..i + 1])
            == Encode(manifest, entries[..i]) + [NUL] + entries[i].0 + [NUL] + entries[i].1
  {
    assert entries[..i + 1][..i] == entries[..i];
  }

  method ComputeVersion(sha: string -> string, manifest: string, hashes: map<string, string>) returns (version: string)
    ensures version == SnapshotVersion(sha, manifest, hashes)
  {
    var names := Lex.Sort(hashes.Keys);
    Lex.SortedIsSorted(hashes.Keys);
    ghost var entries := EntriesOf(hashes);
    var digest := manifest;
    for i := 0 to |names|
      invariant digest == Encode(manifest, entries[..i])
    {
      assert names[i] in names;
      EncodeMore(manifest, entries, i);
      digest := digest + [NUL] + names[i] + [NUL] + hashes[names[i]];
    }
    assert entries[..|names|] == entries;
    version := sha(digest);
  }
}
