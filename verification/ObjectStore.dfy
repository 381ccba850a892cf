/**
 The part of an object store that one index prefix owns: whole objects replaced or removed by single
 atomic requests. The log of the requests is kept as a ghost, so that a crash, and what another
 process sees meanwhile, are statements about prefixes of that log.
 */
module ObjectStore {
  import opened Wrappers

  datatype Segment = Segment(name: string, deletesFile: Option<string>)

  /** A `segments.json`: its exact bytes, and the segments those bytes decode to. */
  datatype Manifest = Manifest(bytes: string, segments: seq<Segment>)

  /** `Raw` is any file of a segment, or a manifest that cannot be decoded. */
  datatype Blob =
    | Raw(bytes: string)
    | SegmentsManifest(manifest: Manifest)
    | Pointer(version: string, manifestSha: string)
    | Marker(version: string)

  type Objects = map<string, Blob>

  datatype Op = Put(key: string, blob: Blob) | Delete(key: string)

  function Apply(objects: Objects, op: Op): Objects {
    match op
    case Put(key, blob) => objects[key := blob]
    case Delete(key) => objects - {key}
  }

  function Replay(objects: Objects, ops: seq<Op>): Objects
    decreases |ops|
  {
    if ops == [] then objects else Apply(Replay(objects, ops[..|ops| - 1]), ops[|ops| - 1])
  }

  lemma {:induction false} ReplayConcat(objects: Objects, a: seq<Op>, b: seq<Op>)
    ensures Replay(objects, a + b) == Replay(Replay(objects, a), b)
    decreases |b|
  {
    if b == [] {
      assert a + b == a;
    } else {
      ReplayConcat(objects, a, b[..|b| - 1]);
      assert (a + b)[..|a + b| - 1] == a + b[..|b| - 1];
    }
  }

  class ObjectStorage {
    var objects: Objects
    ghost var log: seq<Op>
    ghost const initial: Objects

    ghost predicate Valid()
      reads this
    {
      objects == Replay(initial, log)
    }

    constructor (objects: Objects)
      ensures Valid() && this.objects == objects && initial == objects && log == []
    {
      this.objects, this.initial, this.log := objects, objects, [];
    }

    method PutObject(key: string, blob: Blob)
      requires Valid()
      modifies this
      ensures Valid()
      ensures objects == old(objects)[key := blob]
      ensures log == old(log) + [Put(key, blob)]
    {
      objects := objects[key := blob];
      log := log + [Put(key, blob)];
    }

    method DeleteObject(key: string)
      requires Valid()
      modifies this
      ensures Valid()
      ensures objects == old(objects) - {key}
      ensures log == old(log) + [Delete(key)]
    {
      objects := objects - {key};
      log := log + [Delete(key)];
    }
  }

  /** The store as a process sees it while another one writes: every request lands at a later moment. */
  class LiveStore {
    const history: seq<Objects>
    var now: nat

    constructor (history: seq<Objects>)
      requires history != []
      ensures this.history == history && now == 0
    {
      this.history, now := history, 0;
    }

    method Observe() returns (objects: Objects)
      requires now < |history|
      modifies this
      ensures old(now) <= now < |history| && objects == history[now]
    {
      var later: nat :| now <= later < |history|;
      now := later;
      objects := history[now];
    }
  }
}
