/**
 When a search response may be kept and served again: composing responses, the cache that all replicas of the search
 service share, and what a kept response stands for while shard replicas restart on other builds
 (src/beacon_scale_infra/console/cache.py and src/beacon_scale_infra/console/routes/search.py). How a query is parsed,
 scored and turned into snippets is left to other packages: a function of the shards' answers.
 */
module SearchCache {
  import opened Wrappers
  import opened Collections
  import opened ClusterView
  import opened ShardCluster
  import Decimal
  import Lex

  // ------------------------------------------------------------------------------------------- responses

  datatype ShardStatus = ShardStatus(shardId: int, ok: bool, error: string)

  datatype Response = Response(query: string, results: seq<nat>, statuses: seq<ShardStatus>, degraded: bool)

  /** The fan-out reports on each target. */
  ghost predicate AnswersFor(targets: seq<Target>, outcomes: seq<Outcome>) {
    |outcomes| == |targets| && forall i | 0 <= i < |targets| :: outcomes[i].shardId == targets[i].shardId
  }

  /** The dictionary of outcomes by shard; a later one replaces an earlier one. */
  function Statuses(outcomes: seq<Outcome>): map<int, ShardStatus> {
    if outcomes == [] then map[]
    else
      var last := outcomes[|outcomes| - 1];
      Statuses(outcomes[..|outcomes| - 1])[last.shardId := ShardStatus(last.shardId, last.ok, last.error)]
  }

  lemma {:induction false} StatusesAreOutcomes(outcomes: seq<Outcome>)
    ensures forall s | s in Statuses(outcomes) ::
              exists o :: o in outcomes && o.shardId == s && Statuses(outcomes)[s] == ShardStatus(s, o.ok, o.error)
    ensures forall o | o in outcomes :: o.shardId in Statuses(outcomes)
  {
    if outcomes != [] {
      var init, last := outcomes[..|outcomes| - 1], outcomes[|outcomes| - 1];
      assert outcomes == init + [last];
      StatusesAreOutcomes(init);
      forall s | s in Statuses(outcomes)
        ensures exists o :: o in outcomes && o.shardId == s && Statuses(outcomes)[s] == ShardStatus(s, o.ok, o.error)
      {
        if s == last.shardId {
          assert last in outcomes;
        } else {
          assert s in Statuses(init) && Statuses(outcomes)[s] == Statuses(init)[s];
          var o :| o in init && o.shardId == s && Statuses(init)[s] == ShardStatus(s, o.ok, o.error);
          assert o in outcomes;
        }
      }
    }
  }

  function StatusFor(view: ClusterView, statuses: map<int, ShardStatus>, s: int): ShardStatus {
    if s in statuses then statuses[s]
    else if s in view.mismatched then ShardStatus(s, false, "serves another index version")
    else ShardStatus(s, false, "no live replica")
  }

  /** One status for every shard that the deployment has, whether or not it was found. */
  method ComposeShardStatuses(view: ClusterView, statuses: map<int, ShardStatus>, numShards: nat)
      returns (r: seq<ShardStatus>)
    ensures |r| == numShards && forall s | 0 <= s < numShards :: r[s] == StatusFor(view, statuses, s)
  {
    r := [];
    for s := 0 to numShards
      invariant |r| == s && forall i | 0 <= i < s :: r[i] == StatusFor(view, statuses, i)
    {
      r := r + [StatusFor(view, statuses, s)];
    }
  }

  function StatusesFor(view: ClusterView, outcomes: seq<Outcome>, numShards: nat): seq<ShardStatus> {
    seq(numShards, s => StatusFor(view, Statuses(outcomes), s))
  }

  predicate Degraded(view: ClusterView, outcomes: seq<Outcome>, numShards: nat) {
    view.targets == [] || exists s :: 0 <= s < numShards && !StatusFor(view, Statuses(outcomes), s).ok
  }

  lemma ShardAnswered(view: ClusterView, outcomes: seq<Outcome>, numShards: nat, s: int)
    requires AnswersFor(view.targets, outcomes) && !Degraded(view, outcomes, numShards) && 0 <= s < numShards
    ensures s in ShardsOf(view.targets) && exists a :: a in outcomes && a.shardId == s && a.ok
  {
    StatusesAreOutcomes(outcomes);
    assert StatusFor(view, Statuses(outcomes), s).ok;
    var a :| a in outcomes && a.shardId == s && Statuses(outcomes)[s] == ShardStatus(s, a.ok, a.error);
    var i :| 0 <= i < |outcomes| && outcomes[i] == a;
    assert view.targets[i] in view.targets;
  }

  lemma AllAnsweredIsAllShards(view: ClusterView, outcomes: seq<Outcome>, numShards: nat)
    requires |ShardsOf(view.targets)| == |view.targets| && Complete(view, numShards)
    requires AnswersFor(view.targets, outcomes) && !Degraded(view, outcomes, numShards)
    ensures ShardsOf(view.targets) == Shards(numShards)
  {
    forall s | 0 <= s < numShards ensures s in ShardsOf(view.targets) { ShardAnswered(view, outcomes, numShards, s); }
    SameSizeSubset(Shards(numShards), ShardsOf(view.targets));
  }

  // --------------------------------------------------------------------------------------------- searches

  /** A search: what it looked up and when, whom it chose, and what each target answered and when. */
  datatype Origin = Origin(version: string, query: string, limit: nat, numShards: nat, seenAt: nat,
                           instances: seq<ServiceInstance>, chosen: seq<ServiceInstance>,
                           outcomes: seq<Outcome>, answeredAt: seq<nat>)

  function View(o: Origin): ClusterView {
    ViewOf(o.chosen, o.version)
  }

  ghost predicate IsLookup(log: seq<ClusterEvent>, o: Origin) {
    && o.seenAt <= |log| && Discovered(o.instances, o.chosen)
    && (forall i :: i in o.instances <==> i in Registered(log[..o.seenAt]).Values)
  }

  ghost predicate AnsweredAt(log: seq<ClusterEvent>, answer: ShardAnswer, o: Origin, i: nat)
    requires i < |o.outcomes| == |o.answeredAt| <= |View(o).targets|
  {
    && o.seenAt <= o.answeredAt[i] <= |log|
    && IsAnswer(log[..o.answeredAt[i]], answer, o.query, o.limit, View(o).targets[i], o.outcomes[i])
  }

  ghost predicate AllAnswered(log: seq<ClusterEvent>, answer: ShardAnswer, o: Origin)
    requires |o.outcomes| == |o.answeredAt| <= |View(o).targets|
  {
    forall i | 0 <= i < |o.outcomes| :: AnsweredAt(log, answer, o, i)
  }

  /** The first targets have answered. */
  ghost predicate IsAsking(log: seq<ClusterEvent>, answer: ShardAnswer, o: Origin) {
    && IsLookup(log, o) && |o.outcomes| == |o.answeredAt| <= |View(o).targets|
    && AllAnswered(log, answer, o)
  }

  ghost predicate IsSearch(log: seq<ClusterEvent>, answer: ShardAnswer, o: Origin) {
    IsAsking(log, answer, o) && |o.outcomes| == |View(o).targets|
  }

  lemma SearchesStay(log: seq<ClusterEvent>, more: seq<ClusterEvent>, answer: ShardAnswer, o: Origin)
    requires IsAsking(log, answer, o)
    ensures IsAsking(log + more, answer, o)
  {
    assert (log + more)[..o.seenAt] == log[..o.seenAt];
    forall i | 0 <= i < |o.outcomes| ensures AnsweredAt(log + more, answer, o, i) {
      assert AnsweredAt(log, answer, o, i);
      assert (log + more)[..o.answeredAt[i]] == log[..o.answeredAt[i]];
    }
  }

  lemma SearchHasAnswers(log: seq<ClusterEvent>, answer: ShardAnswer, o: Origin)
    requires IsSearch(log, answer, o)
    ensures AnswersFor(View(o).targets, o.outcomes)
  {
    forall i | 0 <= i < |o.outcomes| ensures o.outcomes[i].shardId == View(o).targets[i].shardId {
      assert AnsweredAt(log, answer, o, i);
    }
  }

  /** Parsing, merging, reranking and snippets, from the answers in the order of the shards. */
  type Compose = (string, string, nat, seq<seq<nat>>) -> seq<nat>

  function HitsOf(outcomes: seq<Outcome>): seq<seq<nat>> {
    seq(|outcomes|, i requires 0 <= i < |outcomes| => outcomes[i].hits)
  }

  function ResponseOf(compose: Compose, o: Origin): Response {
    Response(o.query, if View(o).targets == [] then [] else compose(o.version, o.query, o.limit, HitsOf(o.outcomes)),
             StatusesFor(View(o), o.outcomes, o.numShards), Degraded(View(o), o.outcomes, o.numShards))
  }

  /** One list of hits for each target, in their order. */
  ghost predicate AreHits(hits: seq<seq<nat>>, outcomes: seq<Outcome>) {
    |hits| == |outcomes| && forall i | 0 <= i < |outcomes| :: hits[i] == outcomes[i].hits
  }

  ghost predicate ComposedFrom(compose: Compose, o: Origin, results: seq<nat>, hits: seq<seq<nat>>) {
    AreHits(hits, o.outcomes) && results == compose(o.version, o.query, o.limit, hits)
  }

  /** The status of a shard is that of an answer of it; without an answer it has failed. */
  ghost predicate ReportsOn(status: ShardStatus, s: int, outcomes: seq<Outcome>) {
    if exists a :: a in outcomes && a.shardId == s
    then exists a :: a in outcomes && a.shardId == s && status == ShardStatus(s, a.ok, a.error)
    else status.shardId == s && !status.ok
  }

  lemma ReportsOnEachShard(view: ClusterView, outcomes: seq<Outcome>, s: int)
    ensures ReportsOn(StatusFor(view, Statuses(outcomes), s), s, outcomes)
  {
    StatusesAreOutcomes(outcomes);
  }

  predicate Keepable(o: Origin) {
    Cacheable(View(o)) && Complete(View(o), o.numShards)
  }

  // -------------------------------------------------------------------------- what a kept response comes from

  /** The only replica chosen for `s` announced the version, and the shard answered. */
  ghost predicate ShardIsSound(o: Origin, s: int) {
    && (exists c :: c in o.chosen && HasShard(c, s) && Announces(c, o.version))
    && (forall c | c in o.chosen && HasShard(c, s) :: Announces(c, o.version))
    && (exists a :: a in o.outcomes && a.shardId == s && a.ok)
  }

  ghost predicate FromWholeCluster(o: Origin) {
    && (forall s | 0 <= s < o.numShards :: ShardIsSound(o, s))
    && (forall a | a in o.outcomes :: a.ok && 0 <= a.shardId < o.numShards)
  }

  lemma OneAnswerEach(o: Origin, i: nat, a: Outcome)
    requires InOrder(View(o).targets) && AnswersFor(View(o).targets, o.outcomes)
    requires i < |o.outcomes| && a in o.outcomes && a.shardId == o.outcomes[i].shardId
    ensures a == o.outcomes[i]
  {
    var k :| 0 <= k < |o.outcomes| && o.outcomes[k] == a;
    assert View(o).targets[k].shardId == View(o).targets[i].shardId;
  }

  /**
   The condition under which the program keeps a response does what it is meant to: the response comes from all
   shards of the deployment, each by one replica that announced this very version and answered.
   */
  lemma KeptResponsesComeFromWholeCluster(log: seq<ClusterEvent>, answer: ShardAnswer, o: Origin)
    requires IsSearch(log, answer, o) && Keepable(o) && !Degraded(View(o), o.outcomes, o.numShards)
    ensures FromWholeCluster(o) && ShardsOf(View(o).targets) == Shards(o.numShards)
  {
    var view := View(o);
    SearchHasAnswers(log, answer, o);
    TargetsAreDistinct(o.chosen, o.version);
    TargetsAscend(o.chosen, o.version);
    AllAnsweredIsAllShards(view, o.outcomes, o.numShards);
    forall s | 0 <= s < o.numShards ensures ShardIsSound(o, s) {
      ShardAnswered(view, o.outcomes, o.numShards, s);
      OnlyThisVersion(o.chosen, o.version, s);
    }
    forall i | 0 <= i < |o.outcomes| ensures o.outcomes[i].ok && 0 <= o.outcomes[i].shardId < o.numShards {
      assert view.targets[i] in view.targets;
      assert o.outcomes[i].shardId in Shards(o.numShards);
      ShardAnswered(view, o.outcomes, o.numShards, o.outcomes[i].shardId);
      var a :| a in o.outcomes && a.shardId == o.outcomes[i].shardId && a.ok;
      OneAnswerEach(o, i, a);
    }
  }

  /** The hits for shard `s` are what one of its processes has found. */
  ghost predicate FoundBy(answer: ShardAnswer, o: Origin, hits: seq<nat>, s: int) {
    exists build :: hits == answer(build, s, o.query, o.limit)
  }

  /** The results of a kept response are composed from what all shards of the deployment found, in their order. */
  lemma KeptResultsCoverAllShards(log: seq<ClusterEvent>, compose: Compose, answer: ShardAnswer, o: Origin)
    requires IsSearch(log, answer, o) && Keepable(o) && !Degraded(View(o), o.outcomes, o.numShards)
    ensures exists hits :: ComposedFrom(compose, o, ResponseOf(compose, o).results, hits)
                           && |hits| == o.numShards && forall s | 0 <= s < o.numShards :: FoundBy(answer, o, hits[s], s)
  {
    var hits := HitsOf(o.outcomes);
    assert ComposedFrom(compose, o, ResponseOf(compose, o).results, hits);
    KeptResponsesComeFromWholeCluster(log, answer, o);
    TargetsAscend(o.chosen, o.version);
    forall s | 0 <= s < o.numShards ensures FoundBy(answer, o, hits[s], s) {
      TargetsAreInOrder(View(o).targets, o.numShards, s);
      assert AnsweredAt(log, answer, o, s);
      assert o.outcomes[s] in o.outcomes;
      assert hits[s] == answer(o.outcomes[s].build, s, o.query, o.limit);
    }
  }

  // ------------------------------------------------------------------------- restarts between lookup and answer

  /** The replica chosen for target `i` announced itself at `r`, and was another build's by the time it answered. */
  ghost predicate MisledBy(log: seq<ClusterEvent>, o: Origin, i: nat, c: ServiceInstance, r: nat)
    requires i < |o.answeredAt| <= |View(o).targets| && o.answeredAt[i] <= |log| && o.seenAt <= |log|
  {
    && c in o.chosen && c.shardId.Some? && TargetOf(c) == View(o).targets[i]
    && r < o.seenAt && AnnouncedAt(log, c, r) && Misled(log, r, o.answeredAt[i], o.version)
  }

  ghost predicate AnswerIsMisled(log: seq<ClusterEvent>, o: Origin, i: nat)
    requires i < |o.answeredAt| <= |View(o).targets| && o.answeredAt[i] <= |log| && o.seenAt <= |log|
  {
    exists c, r: nat :: MisledBy(log, o, i, c, r)
  }

  lemma ChosenForTarget(o: Origin, i: nat) returns (c: ServiceInstance)
    requires Discovered(o.instances, o.chosen) && i < |View(o).targets|
    ensures c in o.chosen && c.shardId.Some? && TargetOf(c) == View(o).targets[i] && c in o.instances
  {
    TargetsAreChosen(o.chosen, o.version);
    var t := Targets(o.chosen, o.version)[i];
    c :| c in o.chosen && HasShard(c, t.shardId) && TargetOf(c) == t && !Mismatches(c, o.version);
    assert IsChoice(o.instances, c, c.shardId.value);
  }

  lemma ListedAnnouncedItself(log: seq<ClusterEvent>, seenAt: nat, c: ServiceInstance) returns (r: nat)
    requires seenAt <= |log| && c in Registered(log[..seenAt]).Values
    ensures r < seenAt && AnnouncedAt(log, c, r)
  {
    var id :| id in Registered(log[..seenAt]) && Registered(log[..seenAt])[id] == c;
    r := EveryReplicaAnnouncedItself(log[..seenAt], id);
    assert log[..seenAt][..r] == log[..r];
  }

  lemma TargetAnnouncedItself(log: seq<ClusterEvent>, o: Origin, i: nat) returns (c: ServiceInstance, r: nat)
    requires IsLookup(log, o) && i < |View(o).targets|
    ensures c in o.chosen && c.shardId.Some? && TargetOf(c) == View(o).targets[i]
    ensures r < o.seenAt && AnnouncedAt(log, c, r)
  {
    c := ChosenForTarget(o, i);
    r := ListedAnnouncedItself(log, o.seenAt, c);
  }

  /** One answer is another build's exactly if its replica had changed, or had announced what it did not serve. */
  lemma AnswerIsAnothersIff(log: seq<ClusterEvent>, answer: ShardAnswer, o: Origin, i: nat)
    requires IsSearch(log, answer, o) && i < |o.outcomes| && o.outcomes[i].ok
    ensures o.answeredAt[i] <= |log|
    ensures o.outcomes[i].build != o.version <==> AnswerIsMisled(log, o, i)
  {
    assert AnsweredAt(log, answer, o, i);
    if o.outcomes[i].build != o.version {
      var c, r := TargetAnnouncedItself(log, o, i);
      ServesAnotherIff(log, r, o.answeredAt[i], o.version);
      assert MisledBy(log, o, i, c, r);
    }
    if AnswerIsMisled(log, o, i) {
      var c, r: nat :| MisledBy(log, o, i, c, r);
      ServesAnotherIff(log, r, o.answeredAt[i], o.version);
    }
  }

  /**
   What is kept under a version was answered from that build exactly if no chosen replica restarted on another build
   between its announcement and its answer, and none had announced a marker that was not that of its files.
   */
  lemma KeptAnswersAreOfTheVersionIff(log: seq<ClusterEvent>, answer: ShardAnswer, o: Origin)
    requires IsSearch(log, answer, o) && Keepable(o) && !Degraded(View(o), o.outcomes, o.numShards)
    ensures (forall a | a in o.outcomes :: a.build == o.version)
            <==> forall i | 0 <= i < |o.outcomes| :: o.answeredAt[i] <= |log| && !AnswerIsMisled(log, o, i)
  {
    KeptResponsesComeFromWholeCluster(log, answer, o);
    forall i | 0 <= i < |o.outcomes|
      ensures o.answeredAt[i] <= |log| && (o.outcomes[i].build != o.version <==> AnswerIsMisled(log, o, i))
    {
      assert o.outcomes[i] in o.outcomes;
      AnswerIsAnothersIff(log, answer, o, i);
    }
  }

  /** A replica restarts on another build after its announcement was read: the check of versions does not see it. */
  lemma AnOtherBuildMayBeKept(answer: ShardAnswer, version: string, other: string)
      returns (log: seq<ClusterEvent>, o: Origin)
    requires version != other
    ensures IsSearch(log, answer, o) && Keepable(o) && !Degraded(View(o), o.outcomes, o.numShards)
    ensures o.version == version && exists a :: a in o.outcomes && a.build == other
  {
    var at := Address("h", 1);
    log := [Start(at, version, Some(version)), Register("a", at, Some(0)), Start(at, other, Some(other))];
    var c := ServiceInstance("a", "h", 1, Some(0), Some(version));
    var a := Outcome(0, true, "", answer(other, 0, "q", 10), other);
    o := Origin(version, "q", 10, 1, 2, [c], [c], [a], [3]);
    ViewOfReplica(c, c.shardId.value, version);
    OneReplicaIsListed(log, at, version, other);
    OneReplicaIsTheChoice(c);
    OneGoodAnswer(View(o), a);
    assert log[..3] == log;
  }

  lemma OneGoodAnswer(view: ClusterView, a: Outcome)
    requires view.targets != [] && a.shardId == 0 && a.ok
    ensures !Degraded(view, [a], 1)
  {
    assert [a][..0] == [];
    assert Statuses([a]) == map[0 := ShardStatus(0, true, a.error)];
  }

  lemma OneReplicaIsListed(log: seq<ClusterEvent>, at: Address, version: string, other: string)
    requires log == [Start(at, version, Some(version)), Register("a", at, Some(0)), Start(at, other, Some(other))]
    ensures var c := ServiceInstance("a", at.host, at.port, Some(0), Some(version));
            forall i :: i in [c] <==> i in Registered(log[..2]).Values
    ensures Serving(log[..3], at) == Some(Process(other, Some(other)))
  {
    assert log[..2][..1] == log[..1] && log[..1][..0] == [];
    assert Serving(log[..1], at) == Some(Process(version, Some(version)));
    assert Registered(log[..1]) == map[];
    var listed := map["a" := ServiceInstance("a", at.host, at.port, Some(0), Some(version))];
    assert Registered(log[..2]) == listed;
    assert "a" in listed && listed["a"] in listed.Values;
  }

  lemma OneReplicaIsTheChoice(c: ServiceInstance)
    requires c.shardId.Some?
    ensures Discovered([c], [c])
  {
    Lex.Total(c.serviceId, c.serviceId);
    assert [c][0] in [c];
  }

  // ------------------------------------------------------------------------------------------- cache keys

  const KEY_PREFIX := "beacon:console:cache:v1"

  /** A SHA-256 in hexadecimal digits. */
  type Digest = d: string | |d| == 64 witness seq(64, _ => '0')

  function SearchCacheKey(indexVersion: string, digest: Digest, limit: nat): string {
    KEY_PREFIX + ":" + indexVersion + ":q=" + digest + ":limit=" + Decimal.Digits(limit)
  }

  lemma NoColonAfter(a: string, x: string)
    requires ':' !in x
    ensures var s := a + ":" + x; s[|a|] == ':' && forall k | |a| < k < |s| :: s[k] != ':'
  {
    var s := a + ":" + x;
    forall k | |a| < k < |s| ensures s[k] != ':' { assert s[k] == x[k - |a| - 1]; }
  }

  /** A string is split at its last colon in one way only. */
  lemma LastColon(a: string, x: string, b: string, y: string)
    requires a + ":" + x == b + ":" + y && ':' !in x && ':' !in y
    ensures a == b && x == y
  {
    var s := a + ":" + x;
    NoColonAfter(a, x);
    NoColonAfter(b, y);
    assert |a| == |b|;
    assert a == s[..|a|] && b == s[..|b|] && x == s[|a| + 1..] && y == s[|b| + 1..];
  }

  lemma EqualTails(a: string, x: string, b: string, y: string)
    requires a + x == b + y && |x| == |y|
    ensures a == b && x == y
  {
    assert a == (a + x)[..|a|] && x == (a + x)[|a|..] && b == (b + y)[..|b|] && y == (b + y)[|b|..];
  }

  /** Two searches share a key only if they agree on the version, the digest of the query and the limit. */
  lemma KeysAreInjective(v: string, d: Digest, n: nat, v': string, d': Digest, n': nat)
    ensures SearchCacheKey(v, d, n) == SearchCacheKey(v', d', n') <==> v == v' && d == d' && n == n'
  {
    if SearchCacheKey(v, d, n) == SearchCacheKey(v', d', n') { EqualKeys(v, d, n, v', d', n'); }
  }

  lemma EqualKeys(v: string, d: Digest, n: nat, v': string, d': Digest, n': nat)
    requires SearchCacheKey(v, d, n) == SearchCacheKey(v', d', n')
    ensures v == v' && d == d' && n == n'
  {
    var front, front' := KEY_PREFIX + ":" + v + ":q=" + d, KEY_PREFIX + ":" + v' + ":q=" + d';
    var tail, tail' := "limit=" + Decimal.Digits(n), "limit=" + Decimal.Digits(n');
    assert SearchCacheKey(v, d, n) == front + ":" + tail && SearchCacheKey(v', d', n') == front' + ":" + tail';
    LastColon(front, tail, front', tail');
    assert Decimal.Digits(n) == tail[6..] && Decimal.Digits(n') == tail'[6..];
    Decimal.DigitsAreInjective(n, n');
    EqualTails(KEY_PREFIX + ":" + v + ":q=", d, KEY_PREFIX + ":" + v' + ":q=", d');
    EqualTails(KEY_PREFIX + ":" + v, ":q=", KEY_PREFIX + ":" + v', ":q=");
    assert v == (KEY_PREFIX + ":" + v)[|KEY_PREFIX| + 1..] && v' == (KEY_PREFIX + ":" + v')[|KEY_PREFIX| + 1..];
  }

  // ---------------------------------------------------------------------------- replicas with a shared cache

  ghost predicate Kept(compose: Compose, digest: string -> Digest, key: string, response: Response, o: Origin) {
    && key == SearchCacheKey(o.version, digest(o.query), o.limit)
    && Keepable(o) && response == ResponseOf(compose, o) && !response.degraded
  }

  /** The shared cache; any request to it may fail, and an entry that is gone reads like one that fails. */
  class SearchResultCache {
    const digest: string -> Digest
    const compose: Compose
    const cluster: Cluster
    var store: map<string, Response>
    ghost var origins: map<string, Origin>

    constructor (digest: string -> Digest, compose: Compose, cluster: Cluster)
      ensures this.digest == digest && this.compose == compose && this.cluster == cluster && store == map[] && Valid()
    {
      this.digest, this.compose, this.cluster, store, origins := digest, compose, cluster, map[], map[];
    }

    /** Every entry is the response of a search of this run, from a view that was complete and of one version. */
    ghost predicate Valid()
      reads this, cluster
    {
      forall k | k in store ::
        && k in origins && Kept(compose, digest, k, store[k], origins[k])
        && IsSearch(cluster.log, cluster.answer, origins[k])
    }

    method Get(key: string, up: bool) returns (r: Option<Response>)
      ensures r == if up && key in store then Some(store[key]) else None
    {
      r := if up && key in store then Some(store[key]) else None;
    }

    method Set(key: string, response: Response, up: bool, ghost o: Origin)
      requires Valid() && IsSearch(cluster.log, cluster.answer, o)
      requires !response.degraded ==> Kept(compose, digest, key, response, o)
      modifies this
      ensures Valid()
      ensures store == if response.degraded || !up then old(store) else old(store)[key := response]
    {
      if response.degraded { return; }
      if up {
        store, origins := store[key := response], origins[key := o];
      }
    }

    /** Whatever happens in the cluster, the cache stays as it is. */
    method Meanwhile(e: ClusterEvent)
      requires Valid()
      modifies cluster
      ensures Valid() && cluster.log == old(cluster.log) + [e]
    {
      forall k | k in store ensures IsSearch(cluster.log + [e], cluster.answer, origins[k]) {
        SearchesStay(cluster.log, [e], cluster.answer, origins[k]);
      }
      cluster.Happens(e);
    }
  }

  datatype Lookup = Hit(response: Response) | Miss(view: ClusterView, key: Option<string>, chosen: seq<ServiceInstance>)

  /**
   One replica of the search service. Other replicas, and the cluster, go on between its requests, so that a search
   is several steps here: it begins, asks target by target, and finishes.
   */
  class SearchReplica {
    const indexVersion: string
    const numShards: nat
    const cache: SearchResultCache

    constructor (indexVersion: string, numShards: nat, cache: SearchResultCache)
      ensures this.indexVersion == indexVersion && this.numShards == numShards && this.cache == cache
    {
      this.indexVersion, this.numShards, this.cache := indexVersion, numShards, cache;
    }

    /** `o` is a search of this replica for this query. */
    ghost predicate IsMine(query: string, limit: nat, o: Origin) {
      o.version == indexVersion && o.query == query && o.limit == limit && o.numShards == numShards
    }

    ghost function KeyOf(query: string, limit: nat): string {
      SearchCacheKey(indexVersion, cache.digest(query), limit)
    }

    ghost function Key(query: string, limit: nat, o: Origin): Option<string> {
      if Keepable(o) then Some(KeyOf(query, limit)) else None
    }

    /**
     Takes the view, and asks the cache only if the view is complete and cacheable: then it is a hit exactly if the
     cache is up and has the key. `now` is the search that begins; a hit is the response of an earlier search `kept`.
     */
    method Begin(query: string, limit: nat, up: bool) returns (r: Result<Lookup>, ghost now: Origin, ghost kept: Origin)
      requires cache.Valid()
      ensures r.Failure? <==>
                exists id :: id in Registered(cache.cluster.log) && Registered(cache.cluster.log)[id].shardId.None?
      ensures r.Success? ==>
                && IsMine(query, limit, now) && IsAsking(cache.cluster.log, cache.cluster.answer, now)
                && now.outcomes == [] && now.seenAt == |cache.cluster.log|
                && (r.value.Hit? <==> up && Keepable(now) && KeyOf(query, limit) in cache.store)
      ensures r.Success? && r.value.Hit? ==>
                && r.value.response == cache.store[KeyOf(query, limit)]
                && Kept(cache.compose, cache.digest, KeyOf(query, limit), r.value.response, kept)
                && kept.version == indexVersion && cache.digest(kept.query) == cache.digest(query)
                && kept.limit == limit && IsSearch(cache.cluster.log, cache.cluster.answer, kept)
      ensures r.Success? && r.value.Miss? ==>
                r.value.view == View(now) && r.value.chosen == now.chosen && r.value.key == Key(query, limit, now)
    {
      var instances := cache.cluster.Discover();
      AnyUnusable(cache.cluster.log, instances);
      now := Origin(indexVersion, query, limit, numShards, |cache.cluster.log|, instances, [], [], []);
      kept := now;
      var chosen := ChooseShardInstances(instances);
      if chosen.Failure? { return Failure(chosen.error), now, kept; }
      now := now.(chosen := chosen.value);
      assert cache.cluster.log[..|cache.cluster.log|] == cache.cluster.log;
      var view := Classify(chosen.value, indexVersion);
      var key := None;
      if Cacheable(view) && Complete(view, numShards) {
        key := Some(SearchCacheKey(indexVersion, cache.digest(query), limit));
        var cached := cache.Get(key.value, up);
        if cached.Some? {
          kept := cache.origins[key.value];
          KeysAreInjective(indexVersion, cache.digest(query), limit,
                           kept.version, cache.digest(kept.query), kept.limit);
          return Success(Hit(cached.value)), now, kept;
        }
      }
      return Success(Miss(view, key, chosen.value)), now, kept;
    }

    /** Asks the next target; `o` is the search until then. */
    method AskNext(query: string, limit: nat, t: Target, reachable: bool, ghost o: Origin)
        returns (a: Outcome, ghost more: Origin)
      requires IsMine(query, limit, o) && IsAsking(cache.cluster.log, cache.cluster.answer, o)
      requires |o.outcomes| < |View(o).targets| && t == View(o).targets[|o.outcomes|]
      ensures IsAnswer(cache.cluster.log, cache.cluster.answer, query, limit, t, a)
      ensures IsMine(query, limit, more) && IsAsking(cache.cluster.log, cache.cluster.answer, more)
      ensures more == WithAnswer(cache.cluster.log, o, a)
    {
      a := cache.cluster.Ask(t, query, limit, reachable);
      more := WithAnswer(cache.cluster.log, o, a);
      OneMoreAnswer(cache.cluster.log, cache.cluster.answer, o, a);
    }

    /**
     Composes the response, and keeps it if a key was found and no shard failed. Without any target the response
     is degraded and nothing is kept.
     */
    method Finish(query: string, limit: nat, miss: Lookup, outcomes: seq<Outcome>, up: bool, ghost o: Origin)
        returns (response: Response)
      requires cache.Valid() && IsMine(query, limit, o) && IsSearch(cache.cluster.log, cache.cluster.answer, o)
      requires miss.Miss? && miss.view == View(o) && miss.key == Key(query, limit, o) && outcomes == o.outcomes
      modifies cache
      ensures cache.Valid() && response == ResponseOf(cache.compose, o) && response.query == query
      ensures miss.view.targets == [] ==> response.results == []
      ensures miss.view.targets != [] ==> exists hits :: ComposedFrom(cache.compose, o, response.results, hits)
      ensures |response.statuses| == numShards
      ensures forall s | 0 <= s < numShards :: ReportsOn(response.statuses[s], s, outcomes)
      ensures response.degraded <==>
                miss.view.targets == [] || exists s :: 0 <= s < numShards && !response.statuses[s].ok
      ensures cache.store == if Keepable(o) && !response.degraded && up
                             then old(cache.store)[KeyOf(query, limit) := response]
                             else old(cache.store)
    {
      var statuses := ComposeShardStatuses(miss.view, Statuses(outcomes), numShards);
      assert statuses == StatusesFor(View(o), outcomes, numShards);
      forall s | 0 <= s < numShards ensures ReportsOn(statuses[s], s, outcomes) {
        ReportsOnEachShard(View(o), outcomes, s);
      }
      if miss.view.targets == [] { return Response(query, [], statuses, true); }
      var failed := CountFailed(statuses);
      FailedIsDegraded(View(o), outcomes, numShards, statuses, failed);
      var results := cache.compose(indexVersion, query, limit, HitsOf(outcomes));
      assert ComposedFrom(cache.compose, o, results, HitsOf(outcomes));
      response := Response(query, results, statuses, failed > 0);
      if miss.key.Some? { cache.Set(miss.key.value, response, up, o); }
    }
  }

  lemma AnyUnusable(log: seq<ClusterEvent>, instances: seq<ServiceInstance>)
    requires forall i :: i in instances <==> i in Registered(log).Values
    ensures (forall i | i in instances :: i.shardId.Some?)
            <==> forall id | id in Registered(log) :: Registered(log)[id].shardId.Some?
  {
    forall id | id in Registered(log) ensures Registered(log)[id] in instances {
      assert Registered(log)[id] in Registered(log).Values;
    }
  }

  /** The search after one more answer, which has just come. */
  function WithAnswer(log: seq<ClusterEvent>, o: Origin, a: Outcome): Origin {
    o.(outcomes := o.outcomes + [a], answeredAt := o.answeredAt + [|log|])
  }

  lemma EarlierStayAnswered(log: seq<ClusterEvent>, answer: ShardAnswer, o: Origin, a: Outcome, i: nat)
    requires i < |o.outcomes| == |o.answeredAt| < |View(o).targets| && AnsweredAt(log, answer, o, i)
    ensures AnsweredAt(log, answer, WithAnswer(log, o, a), i)
  {
  }

  lemma NewIsAnswered(log: seq<ClusterEvent>, answer: ShardAnswer, o: Origin, a: Outcome)
    requires |o.outcomes| == |o.answeredAt| < |View(o).targets| && o.seenAt <= |log|
    requires IsAnswer(log, answer, o.query, o.limit, View(o).targets[|o.outcomes|], a)
    ensures AnsweredAt(log, answer, WithAnswer(log, o, a), |o.outcomes|)
  {
    assert log[..|log|] == log;
  }

  lemma AllStayAnswered(log: seq<ClusterEvent>, answer: ShardAnswer, o: Origin, a: Outcome)
    requires |o.outcomes| == |o.answeredAt| < |View(o).targets| && AllAnswered(log, answer, o) && o.seenAt <= |log|
    requires IsAnswer(log, answer, o.query, o.limit, View(o).targets[|o.outcomes|], a)
    ensures AllAnswered(log, answer, WithAnswer(log, o, a))
  {
    NewIsAnswered(log, answer, o, a);
    forall i | 0 <= i < |o.outcomes| ensures AnsweredAt(log, answer, WithAnswer(log, o, a), i) {
      EarlierStayAnswered(log, answer, o, a, i);
    }
  }

  lemma LookupStays(log: seq<ClusterEvent>, o: Origin, a: Outcome)
    requires IsLookup(log, o)
    ensures IsLookup(log, WithAnswer(log, o, a)) && View(WithAnswer(log, o, a)) == View(o)
  {
  }

  lemma OneMoreAnswer(log: seq<ClusterEvent>, answer: ShardAnswer, o: Origin, a: Outcome)
    requires IsAsking(log, answer, o) && |o.outcomes| < |View(o).targets|
    requires IsAnswer(log, answer, o.query, o.limit, View(o).targets[|o.outcomes|], a)
    ensures IsAsking(log, answer, WithAnswer(log, o, a))
  {
    LookupStays(log, o, a);
    AllStayAnswered(log, answer, o, a);
  }

  lemma FailedIsDegraded(view: ClusterView, outcomes: seq<Outcome>, numShards: nat, statuses: seq<ShardStatus>,
                         failed: nat)
    requires view.targets != [] && statuses == StatusesFor(view, outcomes, numShards)
    requires failed > 0 <==> exists s :: 0 <= s < |statuses| && !statuses[s].ok
    ensures failed > 0 <==> Degraded(view, outcomes, numShards)
  {
    if Degraded(view, outcomes, numShards) {
      var s :| 0 <= s < numShards && !StatusFor(view, Statuses(outcomes), s).ok;
      assert !statuses[s].ok;
    }
  }

  method CountFailed(statuses: seq<ShardStatus>) returns (n: nat)
    ensures n > 0 <==> exists s :: 0 <= s < |statuses| && !statuses[s].ok
  {
    n := 0;
    for i := 0 to |statuses|
      invariant n > 0 <==> exists s :: 0 <= s < i && !statuses[s].ok
    {
      if !statuses[i].ok { n := n + 1; }
    }
  }

  // ------------------------------------------------------------------------------- what a hit stands for

  /** One shard, number 1, in a deployment whose only shard is number 0: the view counts as complete. */
  lemma CompleteViewMayMissEveryShard(version: string) returns (o: Origin)
    ensures Discovered(o.instances, o.chosen) && o.version == version && o.numShards == 1 && Keepable(o)
    ensures forall s | s in Shards(1) :: s !in ShardsOf(View(o).targets)
  {
    var c := ServiceInstance("a", "h", 1, Some(1), Some(version));
    o := Origin(version, "q", 10, 1, 2, [c], [c], [], []);
    OneReplicaIsTheChoice(c);
    ViewOfReplica(c, c.shardId.value, version);
  }

  /** A search of a complete view of one version, in which whoever answered did serve that version. */
  ghost predicate IsOfTheVersion(log: seq<ClusterEvent>, answer: ShardAnswer, o: Origin) {
    IsSearch(log, answer, o) && Keepable(o) && forall a | a in o.outcomes && a.ok :: a.build == o.version
  }

  ghost predicate EveryTargetAnswered(o: Origin) {
    forall a | a in o.outcomes :: a.ok
  }

  ghost predicate IsClean(log: seq<ClusterEvent>, answer: ShardAnswer, o: Origin) {
    IsOfTheVersion(log, answer, o) && EveryTargetAnswered(o)
  }

  /** What target `i` answers if it serves the version. */
  function CleanAnswer(answer: ShardAnswer, o: Origin, shard: int): Outcome {
    Outcome(shard, true, "", answer(o.version, shard, o.query, o.limit), o.version)
  }

  lemma AnswersAreClean(log: seq<ClusterEvent>, answer: ShardAnswer, o: Origin, i: nat)
    requires IsClean(log, answer, o) && ShardsOf(View(o).targets) == Shards(|View(o).targets|) && i < |o.outcomes|
    ensures o.outcomes[i] == CleanAnswer(answer, o, i)
  {
    assert AnsweredAt(log, answer, o, i);
    assert o.outcomes[i] in o.outcomes;
    TargetsAscend(o.chosen, o.version);
    TargetsAreInOrder(View(o).targets, |View(o).targets|, i);
  }

  lemma SameAnswers(log: seq<ClusterEvent>, answer: ShardAnswer, o: Origin, f: Origin, n: nat)
    requires IsClean(log, answer, o) && IsClean(log, answer, f)
    requires o.version == f.version && o.query == f.query && o.limit == f.limit
    requires |View(o).targets| == n && |View(f).targets| == n
    requires ShardsOf(View(o).targets) == Shards(n) && ShardsOf(View(f).targets) == Shards(n)
    ensures o.outcomes == f.outcomes
  {
    forall i | 0 <= i < |o.outcomes| ensures o.outcomes[i] == f.outcomes[i] {
      AnswersAreClean(log, answer, o, i);
      AnswersAreClean(log, answer, f, i);
    }
  }

  lemma MissingShardDegrades(log: seq<ClusterEvent>, answer: ShardAnswer, f: Origin)
    requires IsSearch(log, answer, f) && Keepable(f)
    ensures !Degraded(View(f), f.outcomes, f.numShards) ==>
              ShardsOf(View(f).targets) == Shards(f.numShards) && EveryTargetAnswered(f)
  {
    if !Degraded(View(f), f.outcomes, f.numShards) { KeptResponsesComeFromWholeCluster(log, answer, f); }
  }

  lemma ShardHasStatus(log: seq<ClusterEvent>, answer: ShardAnswer, o: Origin, s: int)
    requires IsSearch(log, answer, o) && Keepable(o) && !Degraded(View(o), o.outcomes, o.numShards)
    requires 0 <= s < o.numShards
    ensures s in Statuses(o.outcomes)
  {
    assert StatusFor(View(o), Statuses(o.outcomes), s).ok;
  }

  lemma SameResponse(compose: Compose, o: Origin, f: Origin)
    requires o.version == f.version && o.query == f.query && o.limit == f.limit && o.numShards == f.numShards
    requires o.outcomes == f.outcomes && View(o).targets != [] && View(f).targets != []
    requires forall s | 0 <= s < o.numShards :: s in Statuses(o.outcomes)
    ensures ResponseOf(compose, o) == ResponseOf(compose, f)
  {
    assert StatusesFor(View(o), o.outcomes, o.numShards) == StatusesFor(View(f), f.outcomes, f.numShards);
    assert forall s | 0 <= s < o.numShards ::
        StatusFor(View(o), Statuses(o.outcomes), s) == StatusFor(View(f), Statuses(f.outcomes), s);
  }

  lemma SameSearch(compose: Compose, log: seq<ClusterEvent>, answer: ShardAnswer, o: Origin, f: Origin)
    requires IsClean(log, answer, o) && IsClean(log, answer, f) && !Degraded(View(o), o.outcomes, o.numShards)
    requires o.version == f.version && o.query == f.query && o.limit == f.limit && o.numShards == f.numShards
    requires ShardsOf(View(f).targets) == Shards(f.numShards)
    ensures ResponseOf(compose, o) == ResponseOf(compose, f)
  {
    KeptResponsesComeFromWholeCluster(log, answer, o);
    SameAnswers(log, answer, o, f, o.numShards);
    forall s | 0 <= s < o.numShards ensures s in Statuses(o.outcomes) { ShardHasStatus(log, answer, o, s); }
    SameResponse(compose, o, f);
  }

  /**
   A hit is served for any complete, cacheable view. It is what asking the targets of the view now would give exactly
   if the kept response was made for as many shards, the targets are the shards of the deployment, of which their
   number alone does not tell, and every target answers. Whoever answers, then or now, serves the version (see
   `KeptAnswersAreOfTheVersionIff`).
   */
  lemma HitMatchesFanOutIff(compose: Compose, digest: string -> Digest, key: string, log: seq<ClusterEvent>,
                            answer: ShardAnswer, hit: Response, o: Origin, f: Origin)
    requires Kept(compose, digest, key, hit, o) && IsOfTheVersion(log, answer, o) && IsOfTheVersion(log, answer, f)
    requires o.version == f.version && o.query == f.query && o.limit == f.limit
    ensures hit == ResponseOf(compose, f)
            <==> (o.numShards == f.numShards && ShardsOf(View(f).targets) == Shards(f.numShards)
                  && EveryTargetAnswered(f))
  {
    MissingShardDegrades(log, answer, o);
    MissingShardDegrades(log, answer, f);
    assert |hit.statuses| == o.numShards && |ResponseOf(compose, f).statuses| == f.numShards;
    if o.numShards == f.numShards && ShardsOf(View(f).targets) == Shards(f.numShards) && EveryTargetAnswered(f) {
      SameSearch(compose, log, answer, o, f);
    }
  }
}
