/**
 One replica for every shard, and what the search service makes of what they announce
 (src/beacon_scale_infra/query/shard_discovery.py and src/beacon_scale_infra/console/cluster_search.py).
 */
module ClusterView {
  import opened Wrappers
  import opened Collections
  import Lex

  /** What a live replica announces; `int(...)` of its shard id has been tried, and `None` is an error. */
  datatype ServiceInstance = ServiceInstance(serviceId: string, host: string, port: nat, shardId: Option<int>,
                                             indexVersion: Option<string>)

  // ------------------------------------------------------------------------- one replica for every shard

  predicate HasShard(i: ServiceInstance, shard: int) {
    i.shardId == Some(shard)
  }

  /** `chosen` stands for its shard: no replica of that shard has a lesser service id. */
  ghost predicate IsChoice(instances: seq<ServiceInstance>, chosen: ServiceInstance, shard: int) {
    && chosen in instances && HasShard(chosen, shard)
    && forall i | i in instances && HasShard(i, shard) :: Lex.Le(chosen.serviceId, i.serviceId)
  }

  /** The choice for every shard, and the shards in the order in which they turned up. */
  method ChooseByShard(instances: seq<ServiceInstance>) returns (r: Result<map<int, ServiceInstance>>, shards: seq<int>)
    ensures r.Success? <==> forall i | i in instances :: i.shardId.Some?
    ensures r.Success? ==> forall i | i in instances :: i.shardId.value in shards
    ensures r.Success? ==> forall s | s in shards :: s in r.value && IsChoice(instances, r.value[s], s)
    ensures forall i, k | 0 <= i < k < |shards| :: shards[i] != shards[k]
  {
    var chosen: map<int, ServiceInstance> := map[];
    shards := [];
    for k := 0 to |instances|
      invariant forall s :: s in shards <==> s in chosen
      invariant forall i, j | 0 <= i < j < |shards| :: shards[i] != shards[j]
      invariant forall i | i in instances[..k] :: i.shardId.Some? && i.shardId.value in chosen
      invariant forall s | s in chosen :: IsChoice(instances[..k], chosen[s], s)
    {
      var i := instances[k];
      if i.shardId.None? { return Failure("no usable shard_id"), shards; }
      var s := i.shardId.value;
      assert instances[..k + 1] == instances[..k] + [i];
      ChoiceExtends(instances[..k], chosen, i, s);
      if s !in chosen { shards := shards + [s]; }
      if s !in chosen || Lex.Lt(i.serviceId, chosen[s].serviceId) { chosen := chosen[s := i]; }
    }
    assert instances[..|instances|] == instances;
    return Success(chosen), shards;
  }

  lemma ChoiceExtends(seen: seq<ServiceInstance>, chosen: map<int, ServiceInstance>, i: ServiceInstance, s: int)
    requires forall t | t in chosen :: IsChoice(seen, chosen[t], t)
    requires forall x | x in seen :: x.shardId.Some? && x.shardId.value in chosen
    requires HasShard(i, s)
    ensures var chosen' := if s !in chosen || Lex.Lt(i.serviceId, chosen[s].serviceId) then chosen[s := i] else chosen;
            forall t | t in chosen' :: IsChoice(seen + [i], chosen'[t], t)
  {
    var chosen' := if s !in chosen || Lex.Lt(i.serviceId, chosen[s].serviceId) then chosen[s := i] else chosen;
    Lex.Total(i.serviceId, i.serviceId);
    forall t | t in chosen' ensures IsChoice(seen + [i], chosen'[t], t) {
      if t != s {
        assert IsChoice(seen, chosen[t], t);
      } else if s in chosen {
        assert IsChoice(seen, chosen[s], s);
        Lex.Total(i.serviceId, chosen[s].serviceId);
        forall x | x in seen && HasShard(x, s) ensures Lex.Le(chosen'[s].serviceId, x.serviceId) {
          if Lex.Lt(i.serviceId, chosen[s].serviceId) {
            Lex.Transitive(i.serviceId, chosen[s].serviceId, x.serviceId);
          }
        }
      }
    }
  }

  ghost predicate Ascending(shards: seq<int>) {
    forall i, k | 0 <= i < k < |shards| :: shards[i] < shards[k]
  }

  method InsertShard(r: seq<int>, shard: int) returns (more: seq<int>)
    requires Ascending(r) && shard !in r
    ensures Ascending(more)
    ensures forall s :: s in more <==> s in r || s == shard
  {
    var p := 0;
    while p < |r| && r[p] < shard
      invariant p <= |r| && forall i | 0 <= i < p :: r[i] < shard
    {
      p := p + 1;
    }
    InsertedInOrder(r, p, shard);
    more := r[..p] + [shard] + r[p..];
  }

  lemma InsertedInOrder(r: seq<int>, p: nat, shard: int)
    requires Ascending(r) && shard !in r && p <= |r|
    requires forall i | 0 <= i < p :: r[i] < shard
    requires p < |r| ==> shard <= r[p]
    ensures var more := r[..p] + [shard] + r[p..];
            Ascending(more) && forall s :: s in more <==> s in r || s == shard
  {
    assert r == r[..p] + r[p..];
    assert forall i | p <= i < |r| :: shard < r[i];
  }

  method SortShards(shards: seq<int>) returns (r: seq<int>)
    requires forall i, k | 0 <= i < k < |shards| :: shards[i] != shards[k]
    ensures Ascending(r)
    ensures forall s :: s in r <==> s in shards
  {
    r := [];
    for i := 0 to |shards|
      invariant Ascending(r)
      invariant forall s :: s in r <==> s in shards[..i]
    {
      r := InsertShard(r, shards[i]);
      assert shards[..i + 1] == shards[..i] + [shards[i]];
    }
    assert shards[..|shards|] == shards;
  }

  ghost predicate OnePerShard(instances: seq<ServiceInstance>, chosen: seq<ServiceInstance>) {
    && (forall c | c in chosen :: c.shardId.Some? && IsChoice(instances, c, c.shardId.value))
    && (forall i, k | 0 <= i < k < |chosen| :: chosen[i].shardId.value < chosen[k].shardId.value)
    && (forall i | i in instances && i.shardId.Some? :: exists c :: c in chosen && HasShard(c, i.shardId.value))
  }

  /** One replica for every shard that has any, by shard; a replica without a usable shard id is an error. */
  method ChooseShardInstances(instances: seq<ServiceInstance>) returns (r: Result<seq<ServiceInstance>>)
    ensures r.Success? <==> forall i | i in instances :: i.shardId.Some?
    ensures r.Success? ==> OnePerShard(instances, r.value)
  {
    var byShard, found := ChooseByShard(instances);
    if byShard.Failure? { return Failure(byShard.error); }
    var m := byShard.value;
    var shards := SortShards(found);
    var chosen := [];
    for k := 0 to |shards|
      invariant |chosen| == k
      invariant forall i | 0 <= i < k :: HasShard(chosen[i], shards[i]) && IsChoice(instances, chosen[i], shards[i])
    {
      assert shards[k] in shards;
      chosen := chosen + [m[shards[k]]];
    }
    SameShards(instances, found, shards);
    EveryShardIsThere(instances, shards, chosen);
    return Success(chosen);
  }

  lemma SameShards(instances: seq<ServiceInstance>, found: seq<int>, shards: seq<int>)
    requires forall i | i in instances :: i.shardId.Some? && i.shardId.value in found
    requires forall s :: s in shards <==> s in found
    ensures forall i | i in instances :: i.shardId.Some? && i.shardId.value in shards
  {
    forall i | i in instances ensures i.shardId.Some? && i.shardId.value in shards {
      var s := i.shardId.value;
      assert s in found;
    }
  }

  lemma EveryShardIsThere(instances: seq<ServiceInstance>, shards: seq<int>, chosen: seq<ServiceInstance>)
    requires forall i | i in instances :: i.shardId.Some? && i.shardId.value in shards
    requires Ascending(shards) && |chosen| == |shards|
    requires forall k | 0 <= k < |shards| :: HasShard(chosen[k], shards[k]) && IsChoice(instances, chosen[k], shards[k])
    ensures OnePerShard(instances, chosen)
  {
    forall c | c in chosen ensures c.shardId.Some? && IsChoice(instances, c, c.shardId.value) {
      var k :| 0 <= k < |chosen| && chosen[k] == c;
      assert HasShard(chosen[k], shards[k]);
    }
    forall i | i in instances ensures exists c :: c in chosen && HasShard(c, i.shardId.value) {
      var k :| 0 <= k < |shards| && shards[k] == i.shardId.value;
      assert chosen[k] in chosen;
    }
  }

  // ------------------------------------------------------------------------------- the view of the cluster

  datatype Target = Target(shardId: int, host: string, port: nat)

  datatype ClusterView = ClusterView(targets: seq<Target>, mismatched: seq<int>, unverified: seq<int>)

  function TargetOf(i: ServiceInstance): Target
    requires i.shardId.Some?
  {
    Target(i.shardId.value, i.host, i.port)
  }

  predicate Announces(i: ServiceInstance, version: string) {
    i.indexVersion == Some(version)
  }

  predicate Mismatches(i: ServiceInstance, version: string) {
    i.indexVersion.Some? && i.indexVersion.value != version
  }

  function Targets(chosen: seq<ServiceInstance>, version: string): seq<Target> {
    if chosen == [] then []
    else
      var last := chosen[|chosen| - 1];
      Targets(chosen[..|chosen| - 1], version)
      + if last.shardId.Some? && !Mismatches(last, version) then [TargetOf(last)] else []
  }

  function ShardsWith(chosen: seq<ServiceInstance>, p: ServiceInstance -> bool): seq<int> {
    if chosen == [] then []
    else
      var last := chosen[|chosen| - 1];
      ShardsWith(chosen[..|chosen| - 1], p) + if last.shardId.Some? && p(last) then [last.shardId.value] else []
  }

  function ViewOf(chosen: seq<ServiceInstance>, version: string): ClusterView {
    ClusterView(Targets(chosen, version), ShardsWith(chosen, c => Mismatches(c, version)),
                ShardsWith(chosen, (c: ServiceInstance) => c.indexVersion.None?))
  }

  lemma {:induction false} TargetsSplit(a: seq<ServiceInstance>, b: seq<ServiceInstance>, version: string)
    ensures Targets(a + b, version) == Targets(a, version) + Targets(b, version)
  {
    if b == [] {
      assert a + b == a;
    } else {
      var init, last := b[..|b| - 1], b[|b| - 1];
      assert (a + b)[..|a + b| - 1] == a + init && (a + b)[|a + b| - 1] == last;
      TargetsSplit(a, init, version);
    }
  }

  lemma {:induction false} ShardsWithSplit(a: seq<ServiceInstance>, b: seq<ServiceInstance>,
                                           p: ServiceInstance -> bool)
    ensures ShardsWith(a + b, p) == ShardsWith(a, p) + ShardsWith(b, p)
  {
    if b == [] {
      assert a + b == a;
    } else {
      var init, last := b[..|b| - 1], b[|b| - 1];
      assert (a + b)[..|a + b| - 1] == a + init && (a + b)[|a + b| - 1] == last;
      ShardsWithSplit(a, init, p);
    }
  }

  function Joined(v: ClusterView, w: ClusterView): ClusterView {
    ClusterView(v.targets + w.targets, v.mismatched + w.mismatched, v.unverified + w.unverified)
  }

  lemma ViewsJoin(a: seq<ServiceInstance>, b: seq<ServiceInstance>, version: string)
    ensures ViewOf(a + b, version) == Joined(ViewOf(a, version), ViewOf(b, version))
  {
    TargetsSplit(a, b, version);
    var silent := (c: ServiceInstance) => c.indexVersion.None?;
    var other := c => Mismatches(c, version);
    ShardsWithSplit(a, b, silent);
    ShardsWithSplit(a, b, other);
    assert forall s ::
        ViewOf(s, version) == ClusterView(Targets(s, version), ShardsWith(s, other), ShardsWith(s, silent));
  }

  /** What one replica adds: another version is left out, and one that announces none is asked all the same. */
  lemma ViewOfReplica(c: ServiceInstance, shard: int, version: string)
    requires HasShard(c, shard)
    ensures ViewOf([c], version)
            == match c.indexVersion
               case None => ClusterView([Target(shard, c.host, c.port)], [], [shard])
               case Some(announced) =>
                 if announced == version then ClusterView([Target(shard, c.host, c.port)], [], [])
                 else ClusterView([], [shard], [])
  {
    var silent := (i: ServiceInstance) => i.indexVersion.None?;
    var other := i => Mismatches(i, version);
    var s := [c];
    assert s[..|s| - 1] == [] && s[|s| - 1] == c;
    assert Targets(s, version) == if Mismatches(c, version) then [] else [TargetOf(c)];
    assert ShardsWith(s, silent) == if c.indexVersion.None? then [shard] else [];
    assert ShardsWith(s, other) == if Mismatches(c, version) then [shard] else [];
    assert ViewOf(s, version) == ClusterView(Targets(s, version), ShardsWith(s, other), ShardsWith(s, silent));
  }

  /** Where a replica is found in a view. */
  ghost predicate IsClassified(view: ClusterView, c: ServiceInstance, version: string)
    requires c.shardId.Some?
  {
    if Mismatches(c, version) then c.shardId.value in view.mismatched
    else TargetOf(c) in view.targets && (c.indexVersion.None? ==> c.shardId.value in view.unverified)
  }

  lemma EveryReplicaIsClassified(chosen: seq<ServiceInstance>, version: string)
    requires forall c | c in chosen :: c.shardId.Some?
    ensures forall c | c in chosen :: IsClassified(ViewOf(chosen, version), c, version)
  {
    forall c | c in chosen ensures IsClassified(ViewOf(chosen, version), c, version) {
      var i :| 0 <= i < |chosen| && chosen[i] == c;
      ViewsJoin(chosen[..i], [c], version);
      ViewOfReplica(c, c.shardId.value, version);
      ViewsJoin(chosen[..i] + [c], chosen[i + 1..], version);
      assert chosen == chosen[..i] + [c] + chosen[i + 1..];
    }
  }

  /** The classification of `snapshot`: replicas of other versions are not asked, and all others are. */
  method Classify(chosen: seq<ServiceInstance>, version: string) returns (view: ClusterView)
    requires forall c | c in chosen :: c.shardId.Some?
    ensures view == ViewOf(chosen, version)
    ensures forall c | c in chosen :: IsClassified(view, c, version)
  {
    EveryReplicaIsClassified(chosen, version);
    var targets, mismatched, unverified := [], [], [];
    for i := 0 to |chosen|
      invariant ClusterView(targets, mismatched, unverified) == ViewOf(chosen[..i], version)
    {
      var c := chosen[i];
      assert chosen[..i + 1][..i] == chosen[..i];
      if Mismatches(c, version) {
        mismatched := mismatched + [c.shardId.value];
      } else {
        if c.indexVersion.None? { unverified := unverified + [c.shardId.value]; }
        targets := targets + [TargetOf(c)];
      }
    }
    assert chosen[..|chosen|] == chosen;
    view := ClusterView(targets, mismatched, unverified);
  }

  lemma {:induction false} ShardsWithMembers(chosen: seq<ServiceInstance>, p: ServiceInstance -> bool)
    requires forall c | c in chosen :: c.shardId.Some?
    ensures forall c | c in chosen && p(c) :: c.shardId.value in ShardsWith(chosen, p)
  {
    if chosen != [] {
      assert chosen == chosen[..|chosen| - 1] + [chosen[|chosen| - 1]];
      ShardsWithMembers(chosen[..|chosen| - 1], p);
    }
  }

  /** Every target is a chosen replica that announces this version, or none. */
  lemma {:induction false} TargetsAreChosen(chosen: seq<ServiceInstance>, version: string)
    ensures forall t | t in Targets(chosen, version) ::
              exists c :: c in chosen && HasShard(c, t.shardId) && TargetOf(c) == t && !Mismatches(c, version)
  {
    if chosen != [] {
      var init, last := chosen[..|chosen| - 1], chosen[|chosen| - 1];
      assert chosen == init + [last];
      TargetsAreChosen(init, version);
      forall t | t in Targets(chosen, version)
        ensures exists c :: c in chosen && HasShard(c, t.shardId) && TargetOf(c) == t && !Mismatches(c, version)
      {
        if t in Targets(init, version) {
          var c :| c in init && HasShard(c, t.shardId) && TargetOf(c) == t && !Mismatches(c, version);
          assert c in chosen;
        } else {
          assert last in chosen && TargetOf(last) == t;
        }
      }
    }
  }

  function ShardsOf(targets: seq<Target>): set<int> {
    set t | t in targets :: t.shardId
  }

  /** With one replica chosen for every shard, the targets have distinct shards. */
  lemma {:induction false} TargetsAreDistinct(chosen: seq<ServiceInstance>, version: string)
    requires forall c | c in chosen :: c.shardId.Some?
    requires forall i, k | 0 <= i < k < |chosen| :: chosen[i].shardId.value < chosen[k].shardId.value
    ensures |ShardsOf(Targets(chosen, version))| == |Targets(chosen, version)|
  {
    if chosen != [] {
      var init, last := chosen[..|chosen| - 1], chosen[|chosen| - 1];
      TargetsAreDistinct(init, version);
      var before := Targets(init, version);
      if !Mismatches(last, version) {
        TargetsAreChosen(init, version);
        forall t | t in before ensures t.shardId != last.shardId.value {
          var c :| c in init && HasShard(c, t.shardId);
          var i :| 0 <= i < |init| && init[i] == c;
          assert chosen[i].shardId.value < chosen[|chosen| - 1].shardId.value;
        }
        assert ShardsOf(before + [TargetOf(last)]) == ShardsOf(before) + {last.shardId.value};
      } else {
        assert before + [] == before;
      }
    }
  }

  predicate Cacheable(view: ClusterView) {
    view.mismatched == [] && view.unverified == []
  }

  predicate Complete(view: ClusterView, numShards: nat) {
    |view.targets| == numShards
  }

  ghost predicate InOrder(targets: seq<Target>) {
    forall i, k | 0 <= i < k < |targets| :: targets[i].shardId < targets[k].shardId
  }

  lemma {:induction false} TargetsAscend(chosen: seq<ServiceInstance>, version: string)
    requires forall c | c in chosen :: c.shardId.Some?
    requires forall i, k | 0 <= i < k < |chosen| :: chosen[i].shardId.value < chosen[k].shardId.value
    ensures InOrder(Targets(chosen, version))
  {
    if chosen != [] {
      var init, last := chosen[..|chosen| - 1], chosen[|chosen| - 1];
      assert last in chosen;
      TargetsAscend(init, version);
      TargetsAreChosen(init, version);
      var before := Targets(init, version);
      forall i | 0 <= i < |before| ensures before[i].shardId < last.shardId.value {
        assert before[i] in before;
        var c :| c in init && HasShard(c, before[i].shardId);
        var k :| 0 <= k < |init| && init[k] == c;
        assert chosen[k].shardId.value < chosen[|chosen| - 1].shardId.value;
      }
      if Mismatches(last, version) {
        assert Targets(chosen, version) == before;
      } else {
        assert Targets(chosen, version) == before + [TargetOf(last)];
      }
    }
  }

  /** The shards of a deployment of `n`. */
  function Shards(n: nat): (r: set<int>)
    ensures |r| == n && forall s :: s in r <==> 0 <= s < n
  {
    if n == 0 then {} else Shards(n - 1) + {n - 1}
  }

  /** If the targets are exactly the shards of the deployment, they are in this order. */
  lemma TargetsAreInOrder(targets: seq<Target>, n: nat, i: nat)
    requires InOrder(targets)
    requires |targets| == n && ShardsOf(targets) == Shards(n) && i < n
    ensures targets[i].shardId == i
  {
    assert targets[0].shardId in ShardsOf(targets);
    AtLeast(targets, i);
    AtMost(targets, n, i);
  }

  lemma {:induction false} AtLeast(targets: seq<Target>, i: nat)
    requires InOrder(targets)
    requires i < |targets| && 0 <= targets[0].shardId
    ensures targets[i].shardId >= i
  {
    if i > 0 { AtLeast(targets, i - 1); }
  }

  lemma {:induction false} AtMost(targets: seq<Target>, n: nat, i: nat)
    requires InOrder(targets)
    requires |targets| == n && ShardsOf(targets) == Shards(n) && i < n
    ensures targets[i].shardId <= i
    decreases n - i
  {
    assert targets[i].shardId in ShardsOf(targets);
    if i < n - 1 { AtMost(targets, n, i + 1); }
  }

  ghost predicate Discovered(instances: seq<ServiceInstance>, chosen: seq<ServiceInstance>) {
    (forall i | i in instances :: i.shardId.Some?) && OnePerShard(instances, chosen)
  }

  /** In a cacheable view a shard among the targets was chosen for its announcement of this version. */
  lemma OnlyThisVersion(chosen: seq<ServiceInstance>, version: string, s: int)
    requires forall c | c in chosen :: c.shardId.Some?
    requires Cacheable(ViewOf(chosen, version)) && s in ShardsOf(Targets(chosen, version))
    ensures exists c :: c in chosen && HasShard(c, s) && Announces(c, version)
    ensures forall c | c in chosen && HasShard(c, s) :: Announces(c, version)
  {
    TargetsAreChosen(chosen, version);
    NobodyElse(chosen, version);
    var t :| t in Targets(chosen, version) && t.shardId == s;
    var c :| c in chosen && HasShard(c, t.shardId);
    assert Announces(c, version);
  }

  lemma NobodyElse(chosen: seq<ServiceInstance>, version: string)
    requires forall c | c in chosen :: c.shardId.Some?
    requires Cacheable(ViewOf(chosen, version))
    ensures forall c | c in chosen :: Announces(c, version)
  {
    var silent := (c: ServiceInstance) => c.indexVersion.None?;
    var other := c => Mismatches(c, version);
    ShardsWithMembers(chosen, silent);
    ShardsWithMembers(chosen, other);
    assert ShardsWith(chosen, silent) == ViewOf(chosen, version).unverified;
    assert ShardsWith(chosen, other) == ViewOf(chosen, version).mismatched;
    forall c | c in chosen ensures Announces(c, version) {
      assert !silent(c) && !other(c);
    }
  }
}
