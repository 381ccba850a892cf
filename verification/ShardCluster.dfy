/**
 The shard replicas behind the search service over a whole run: processes start, announce themselves, restart and
 leave, while searches look up the replicas and ask them (src/beacon_scale_infra/query/shard_replica_service.py,
 src/beacon_scale_infra/registry/local.py and src/beacon_scale_infra/console/cluster_search.py).
 */
module ShardCluster {
  import opened Wrappers
  import opened Collections
  import opened ClusterView

  datatype Address = Address(host: string, port: nat)

  /**
   A process starts with the files of a build, and then reads the marker next to them; the process at an address
   announces that marker; an announcement is withdrawn or expires.
   */
  datatype ClusterEvent =
    | Start(at: Address, build: string, marker: Option<string>)
    | Register(serviceId: string, at: Address, shardId: Option<int>)
    | Leave(serviceId: string)

  datatype Process = Process(build: string, marker: Option<string>)

  predicate StartsAt(e: ClusterEvent, at: Address) {
    e.Start? && e.at == at
  }

  /** The process that has this address after these events. */
  function Serving(log: seq<ClusterEvent>, at: Address): Option<Process> {
    if log == [] then None
    else
      var e := log[|log| - 1];
      if StartsAt(e, at) then Some(Process(e.build, e.marker)) else Serving(log[..|log| - 1], at)
  }

  function Announcement(log: seq<ClusterEvent>, e: ClusterEvent): ServiceInstance
    requires e.Register? && Serving(log, e.at).Some?
  {
    ServiceInstance(e.serviceId, e.at.host, e.at.port, e.shardId, Serving(log, e.at).value.marker)
  }

  /** The replicas that the registry lists. */
  function Registered(log: seq<ClusterEvent>): map<string, ServiceInstance> {
    if log == [] then map[]
    else
      var init, e := log[..|log| - 1], log[|log| - 1];
      match e
      case Start(_, _, _) => Registered(init)
      case Register(id, at, _) =>
        if Serving(init, at).Some? then Registered(init)[id := Announcement(init, e)] else Registered(init)
      case Leave(id) => Registered(init) - {id}
  }

  /** Where in the run the announcement that the registry lists was made. */
  ghost predicate AnnouncedAt(log: seq<ClusterEvent>, c: ServiceInstance, r: nat) {
    && r < |log| && log[r].Register? && Serving(log[..r], log[r].at).Some? && c == Announcement(log[..r], log[r])
  }

  lemma {:induction false} EveryReplicaAnnouncedItself(log: seq<ClusterEvent>, id: string) returns (r: nat)
    requires id in Registered(log)
    ensures AnnouncedAt(log, Registered(log)[id], r)
  {
    var init, e := log[..|log| - 1], log[|log| - 1];
    if e.Register? && e.serviceId == id && Serving(init, e.at).Some? {
      r := |init|;
    } else {
      r := EveryReplicaAnnouncedItself(init, id);
      assert log[..r] == init[..r];
    }
  }

  /** A process announces itself under this id. */
  ghost predicate AnnouncesItself(log: seq<ClusterEvent>, id: string, r: nat)
    requires r < |log|
  {
    log[r].Register? && log[r].serviceId == id && Serving(log[..r], log[r].at).Some?
  }

  /** It has announced itself, and since then it has neither left nor announced itself again. */
  ghost predicate StaysAnnounced(log: seq<ClusterEvent>, id: string, r: nat) {
    && r < |log| && AnnouncesItself(log, id, r)
    && forall k | r < k < |log| :: log[k] != Leave(id) && !AnnouncesItself(log, id, k)
  }

  lemma AnnouncementStays(log: seq<ClusterEvent>, e: ClusterEvent, id: string, r: nat)
    requires r < |log|
    ensures StaysAnnounced(log + [e], id, r)
            <==> StaysAnnounced(log, id, r) && e != Leave(id) && !AnnouncesItself(log + [e], id, |log|)
  {
    var more := log + [e];
    assert forall k | 0 <= k < |log| :: more[k] == log[k] && more[..k] == log[..k];
    assert forall k: nat | k < |log| :: AnnouncesItself(more, id, k) <==> AnnouncesItself(log, id, k);
    if StaysAnnounced(log, id, r) && e != Leave(id) && !AnnouncesItself(more, id, |log|) {
      forall k: nat | r < k < |more| ensures more[k] != Leave(id) && !AnnouncesItself(more, id, k) {
        if k < |log| { assert more[k] == log[k]; }
      }
    }
    if StaysAnnounced(more, id, r) {
      assert more[|log|] == e;
      forall k: nat | r < k < |log| ensures log[k] != Leave(id) && !AnnouncesItself(log, id, k) {
        assert more[k] == log[k];
      }
    }
  }

  /** The registry lists a replica exactly from its announcement until it leaves, with what it announced last. */
  lemma {:induction false} ListedIff(log: seq<ClusterEvent>, id: string)
    ensures id in Registered(log) <==> exists r: nat :: StaysAnnounced(log, id, r)
    ensures forall r: nat | StaysAnnounced(log, id, r) ::
              id in Registered(log) && AnnouncedAt(log, Registered(log)[id], r)
  {
    if log != [] {
      var n := |log| - 1;
      var init, e := log[..n], log[n];
      LastSplit(log);
      ListedIff(init, id);
      forall r: nat | r < n
        ensures StaysAnnounced(log, id, r)
                <==> StaysAnnounced(init, id, r) && e != Leave(id) && !AnnouncesItself(log, id, n)
      {
        AnnouncementStays(init, e, id, r);
        assert log[..r] == init[..r];
      }
      if AnnouncesItself(log, id, n) {
        assert StaysAnnounced(log, id, n);
      } else if id in Registered(log) {
        var r: nat :| StaysAnnounced(init, id, r);
        assert StaysAnnounced(log, id, r);
      }
      forall r: nat | StaysAnnounced(log, id, r)
        ensures id in Registered(log) && AnnouncedAt(log, Registered(log)[id], r)
      {
        if r < n {
          assert StaysAnnounced(init, id, r);
          assert log[..r] == init[..r];
        }
      }
    }
  }

  // ------------------------------------------------------------------------------ what happens in between

  ghost predicate NoStart(log: seq<ClusterEvent>, at: Address, from: nat, to: nat)
    requires to <= |log|
  {
    forall k | from <= k < to :: !StartsAt(log[k], at)
  }

  /** The last process to start there between these moments started on another build. */
  ghost predicate RestartedOnAnother(log: seq<ClusterEvent>, at: Address, from: nat, to: nat, version: string)
    requires to <= |log|
  {
    exists j :: from <= j < to && StartsAt(log[j], at) && log[j].build != version && NoStart(log, at, j + 1, to)
  }

  /** The process that announced itself had read a marker that is not that of its files. */
  ghost predicate AnnouncedAnother(log: seq<ClusterEvent>, r: nat, version: string)
    requires r < |log| && log[r].Register? && Serving(log[..r], log[r].at).Some?
  {
    Serving(log[..r], log[r].at).value.build != version
  }

  /** Whoever relies on this announcement at a later moment finds another build there. */
  ghost predicate Misled(log: seq<ClusterEvent>, r: nat, to: nat, version: string)
    requires r < |log| && log[r].Register? && Serving(log[..r], log[r].at).Some? && to <= |log|
  {
    || RestartedOnAnother(log, log[r].at, r, to, version)
    || (NoStart(log, log[r].at, r, to) && AnnouncedAnother(log, r, version))
  }

  lemma {:induction false} ServingSince(log: seq<ClusterEvent>, at: Address, from: nat, to: nat) returns (j: int)
    requires from <= to <= |log|
    ensures j < 0 ==> NoStart(log, at, from, to) && Serving(log[..to], at) == Serving(log[..from], at)
    ensures j >= 0 ==> from <= j < to && StartsAt(log[j], at) && NoStart(log, at, j + 1, to)
                       && Serving(log[..to], at) == Some(Process(log[j].build, log[j].marker))
  {
    if to == from {
      j := -1;
    } else {
      assert log[..to][..to - 1] == log[..to - 1];
      if StartsAt(log[to - 1], at) {
        j := to - 1;
      } else {
        j := ServingSince(log, at, from, to - 1);
      }
    }
  }

  /**
   The process at the announced address serves another build exactly if it restarted on one, or never had this one.
   */
  lemma ServesAnotherIff(log: seq<ClusterEvent>, r: nat, to: nat, version: string)
    requires r < |log| && log[r].Register? && Serving(log[..r], log[r].at).Some? && r <= to <= |log|
    ensures Serving(log[..to], log[r].at).Some?
    ensures Serving(log[..to], log[r].at).value.build != version <==> Misled(log, r, to, version)
  {
    var at := log[r].at;
    var j := ServingSince(log, at, r, to);
    if j >= 0 && RestartedOnAnother(log, at, r, to, version) {
      var k :| r <= k < to && StartsAt(log[k], at) && log[k].build != version && NoStart(log, at, k + 1, to);
      assert k == j;
    }
  }

  // ------------------------------------------------------------------------------------ looking up and asking

  /** What a shard of a build answers to a query. */
  type ShardAnswer = (string, int, string, nat) -> seq<nat>

  /** A shard's answer. `build` is the index build that it came from, which nobody can see. */
  datatype Outcome = Outcome(shardId: int, ok: bool, error: string, hits: seq<nat>, build: string)

  ghost predicate IsAnswer(log: seq<ClusterEvent>, answer: ShardAnswer, query: string, limit: nat, t: Target,
                           a: Outcome) {
    var process := Serving(log, Address(t.host, t.port));
    && a.shardId == t.shardId
    && (a.ok ==> process.Some? && a.build == process.value.build && a.error == ""
                 && a.hits == answer(a.build, a.shardId, query, limit))
  }

  class Cluster {
    const answer: ShardAnswer
    var log: seq<ClusterEvent>

    constructor (answer: ShardAnswer)
      ensures this.answer == answer && log == []
    {
      this.answer, log := answer, [];
    }

    method Happens(e: ClusterEvent)
      modifies this
      ensures log == old(log) + [e]
    {
      log := log + [e];
    }

    method Discover() returns (instances: seq<ServiceInstance>)
      ensures forall i :: i in instances <==> i in Registered(log).Values
    {
      var listed := Registered(log);
      var ids := listed.Keys;
      instances := [];
      while ids != {}
        invariant ids <= listed.Keys
        invariant forall i :: i in instances <==> exists id :: id in listed && id !in ids && listed[id] == i
        decreases |ids|
      {
        var id :| id in ids;
        OneMoreListed(listed, ids, id, instances);
        instances := instances + [listed[id]];
        ids := ids - {id};
      }
    }

    /** One request of the fan-out; it may fail for any reason. */
    method Ask(t: Target, query: string, limit: nat, reachable: bool) returns (a: Outcome)
      ensures IsAnswer(log, answer, query, limit, t, a)
    {
      var process := Serving(log, Address(t.host, t.port));
      if !reachable || process.None? { return Outcome(t.shardId, false, "no answer", [], ""); }
      var build := process.value.build;
      return Outcome(t.shardId, true, "", answer(build, t.shardId, query, limit), build);
    }
  }

  lemma OneMoreListed(listed: map<string, ServiceInstance>, ids: set<string>, id: string,
                      instances: seq<ServiceInstance>)
    requires ids <= listed.Keys && id in ids
    requires forall i :: i in instances <==> exists d :: d in listed && d !in ids && listed[d] == i
    ensures forall i :: i in instances + [listed[id]] <==> exists d :: d in listed && d !in ids - {id} && listed[d] == i
  {
    forall i ensures i in instances + [listed[id]] <==> exists d :: d in listed && d !in ids - {id} && listed[d] == i {
      if i in instances {
        var d :| d in listed && d !in ids && listed[d] == i;
        assert d !in ids - {id};
      }
      if i == listed[id] { assert id !in ids - {id}; }
    }
  }
}
