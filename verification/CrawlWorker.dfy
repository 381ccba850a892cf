/**
 A single crawl worker on the shared frontier (src/beacon_scale_infra/crawl/worker.py). Because the queue is
 FIFO, and a batch is processed in the order it was handed out, one worker claims breadth first.
 */
module CrawlWorker {
  import opened Wrappers
  import opened Collections
  import opened CrawlGraph
  import opened MessageQueue

  datatype FrontierJob = FrontierJob(url: Url, depth: nat, discoveredFrom: Option<Url>)

  datatype PageRecord = PageRecord(url: Url, depth: nat, outlinks: seq<Url>)

  // -------------------------------------------------------------------- the crawl as a work list

  /** `claimed` records at which depth each URL was claimed; `work` is held or waiting, oldest first. */
  datatype Crawl = Crawl(work: seq<FrontierJob>, claimed: map<Url, nat>, pages: seq<PageRecord>)

  /** `url` has been claimed no deeper than `d`, or a job will do so. */
  ghost predicate Handled(c: Crawl, url: Url, d: nat) {
    || (url in c.claimed && c.claimed[url] <= d)
    || exists j | j in c.work :: j.url == url && j.depth <= d
  }

  ghost predicate Sound(web: Web, seeds: seq<Url>, maxDepth: nat, c: Crawl) {
    && (forall u | u in c.claimed :: c.claimed[u] <= maxDepth && Reaches(web, seeds, u, c.claimed[u]))
    && (forall j | j in c.work :: j.depth <= maxDepth && Reaches(web, seeds, j.url, j.depth))
  }

  /** Nothing is forgotten: seeds, and the links of every page that may still be followed. */
  ghost predicate Closed(web: Web, seeds: seq<Url>, maxDepth: nat, c: Crawl) {
    && (forall s | s in seeds :: Handled(c, s, 0))
    && (forall u, v | u in c.claimed && c.claimed[u] < maxDepth && v in Outlinks(web, u) ::
         Handled(c, v, c.claimed[u] + 1))
  }

  /** Breadth first: what is claimed is no deeper than what waits, and the work spans two levels. */
  ghost predicate Layered(c: Crawl, level: nat) {
    && (forall u | u in c.claimed :: c.claimed[u] <= level)
    && (forall j | j in c.work :: level <= j.depth <= level + 1)
    && (forall i, k | 0 <= i < k < |c.work| :: c.work[i].depth <= c.work[k].depth)
  }

  /** One page for every URL that was claimed, allowed and fetched. */
  ghost predicate PagesMatch(web: Web, c: Crawl) {
    && (forall i | 0 <= i < |c.pages| ::
          var p := c.pages[i];
          && p.url in c.claimed && p.depth == c.claimed[p.url]
          && Visit(web, p.url) == Fetched(p.outlinks))
    && (forall i, k | 0 <= i < k < |c.pages| :: c.pages[i].url != c.pages[k].url)
    && (forall u | u in c.claimed && Visit(web, u).Fetched? :: exists i :: 0 <= i < |c.pages| && c.pages[i].url == u)
  }

  function Jobs(links: seq<Url>, depth: nat, parent: Option<Url>): seq<FrontierJob> {
    seq(|links|, i requires 0 <= i < |links| => FrontierJob(links[i], depth, parent))
  }

  /** The jobs that `_process_job` publishes for a page it has just crawled. */
  function Discovered(web: Web, maxDepth: nat, job: FrontierJob): seq<FrontierJob> {
    if job.depth < maxDepth then Jobs(Outlinks(web, job.url), job.depth + 1, Some(job.url)) else []
  }

  /** `_process_job` on the oldest job. */
  function Process(web: Web, maxDepth: nat, c: Crawl): Crawl
    requires c.work != []
  {
    var job, rest := c.work[0], c.work[1..];
    if job.url in c.claimed then c.(work := rest)
    else
      Crawl(rest + Discovered(web, maxDepth, job),
            c.claimed[job.url := job.depth],
            c.pages + (if Visit(web, job.url).Fetched? then [PageRecord(job.url, job.depth, Outlinks(web, job.url))]
                       else []))
  }

  lemma ProcessIsSound(web: Web, seeds: seq<Url>, maxDepth: nat, c: Crawl)
    requires c.work != [] && Sound(web, seeds, maxDepth, c)
    ensures Sound(web, seeds, maxDepth, Process(web, maxDepth, c))
  {
    var job := c.work[0];
    var c' := Process(web, maxDepth, c);
    forall j | j in c'.work ensures j.depth <= maxDepth && Reaches(web, seeds, j.url, j.depth) {
      if j !in c.work {
        var news := Discovered(web, maxDepth, job);
        assert j in news;
        LinkIsReached(web, seeds, job.url, job.depth, j.url);
      }
    }
  }

  lemma ProcessIsLayered(web: Web, maxDepth: nat, c: Crawl, level: nat)
    requires c.work != [] && Layered(c, level)
    ensures Layered(Process(web, maxDepth, c), c.work[0].depth)
  {
    var job := c.work[0];
    assert forall i | 0 <= i < |c.work| :: c.work[i] in c.work;
  }

  lemma StaysHandled(web: Web, maxDepth: nat, c: Crawl, level: nat, url: Url, d: nat)
    requires c.work != [] && Layered(c, level) && Handled(c, url, d)
    ensures Handled(Process(web, maxDepth, c), url, d)
  {
    var job := c.work[0];
    var c' := Process(web, maxDepth, c);
    if !(url in c.claimed && c.claimed[url] <= d) {
      var j :| j in c.work && j.url == url && j.depth <= d;
      if j == job {
        assert url in c'.claimed && c'.claimed[url] <= job.depth;
      } else {
        assert c.work == [job] + c.work[1..];
        assert j in c'.work;
      }
    }
  }

  lemma ProcessIsClosed(web: Web, seeds: seq<Url>, maxDepth: nat, c: Crawl, level: nat)
    requires c.work != [] && Layered(c, level) && Closed(web, seeds, maxDepth, c)
    ensures Closed(web, seeds, maxDepth, Process(web, maxDepth, c))
  {
    var job := c.work[0];
    var c' := Process(web, maxDepth, c);
    forall s | s in seeds ensures Handled(c', s, 0) { StaysHandled(web, maxDepth, c, level, s, 0); }
    forall u, v | u in c'.claimed && c'.claimed[u] < maxDepth && v in Outlinks(web, u)
      ensures Handled(c', v, c'.claimed[u] + 1)
    {
      if u in c.claimed {
        StaysHandled(web, maxDepth, c, level, v, c.claimed[u] + 1);
      } else {
        var i :| 0 <= i < |Outlinks(web, u)| && Outlinks(web, u)[i] == v;
        assert Discovered(web, maxDepth, job)[i].url == v;
        assert Discovered(web, maxDepth, job)[i] in c'.work;
      }
    }
  }

  lemma ProcessMatchesPages(web: Web, maxDepth: nat, c: Crawl)
    requires c.work != [] && PagesMatch(web, c)
    ensures PagesMatch(web, Process(web, maxDepth, c))
  {
    var job := c.work[0];
    var c' := Process(web, maxDepth, c);
    if job.url !in c.claimed {
      forall u | u in c'.claimed && Visit(web, u).Fetched?
        ensures exists i :: 0 <= i < |c'.pages| && c'.pages[i].url == u
      {
        if u in c.claimed {
          var i :| 0 <= i < |c.pages| && c.pages[i].url == u;
          assert c'.pages[i].url == u;
        } else {
          assert c'.pages[|c.pages|].url == u;
        }
      }
    }
  }

  ghost predicate Good(web: Web, seeds: seq<Url>, maxDepth: nat, c: Crawl) {
    && Sound(web, seeds, maxDepth, c) && Closed(web, seeds, maxDepth, c) && PagesMatch(web, c)
    && exists level: nat :: Layered(c, level)
  }

  lemma ProcessKeepsGood(web: Web, seeds: seq<Url>, maxDepth: nat, c: Crawl)
    requires c.work != [] && Good(web, seeds, maxDepth, c)
    ensures Good(web, seeds, maxDepth, Process(web, maxDepth, c))
  {
    var level: nat :| Layered(c, level);
    ProcessIsSound(web, seeds, maxDepth, c);
    ProcessIsClosed(web, seeds, maxDepth, c, level);
    ProcessMatchesPages(web, maxDepth, c);
    ProcessIsLayered(web, maxDepth, c, level);
  }

  lemma {:induction false} PathIsClaimed(web: Web, seeds: seq<Url>, maxDepth: nat, c: Crawl, p: seq<Url>, i: nat)
    requires c.work == [] && Closed(web, seeds, maxDepth, c)
    requires Path(web, seeds, p) && i < |p| && i <= maxDepth
    ensures p[i] in c.claimed && c.claimed[p[i]] <= i
  {
    if i == 0 {
      assert Handled(c, p[0], 0);
    } else {
      PathIsClaimed(web, seeds, maxDepth, c, p, i - 1);
      assert p[i] in Outlinks(web, p[i - 1]);
      assert Handled(c, p[i], c.claimed[p[i - 1]] + 1);
    }
  }

  /** With the work list empty, exactly the URLs within `maxDepth` are claimed, each at its distance. */
  lemma EmptyWorkIsExact(web: Web, seeds: seq<Url>, maxDepth: nat, c: Crawl)
    requires c.work == [] && Good(web, seeds, maxDepth, c)
    ensures forall u | u in c.claimed :: Within(web, seeds, u, maxDepth) && IsDistance(web, seeds, u, c.claimed[u])
    ensures forall u | Within(web, seeds, u, maxDepth) :: u in c.claimed
  {
    forall u, k: nat | k <= maxDepth && Reaches(web, seeds, u, k) ensures u in c.claimed && c.claimed[u] <= k {
      var p :| Path(web, seeds, p) && |p| == k + 1 && p[k] == u;
      PathIsClaimed(web, seeds, maxDepth, c, p, k);
    }
  }

  /** A URL on a path has been claimed no deeper than it lies there, unless a job as shallow still waits. */
  lemma {:induction false} PathIsClaimedOrWaits(web: Web, seeds: seq<Url>, maxDepth: nat, c: Crawl, p: seq<Url>, i: nat)
    requires Closed(web, seeds, maxDepth, c) && Path(web, seeds, p) && i < |p| && i <= maxDepth
    ensures (p[i] in c.claimed && c.claimed[p[i]] <= i) || exists j :: j in c.work && j.depth <= i
  {
    if i == 0 {
      assert Handled(c, p[0], 0);
    } else {
      PathIsClaimedOrWaits(web, seeds, maxDepth, c, p, i - 1);
      assert p[i] in Outlinks(web, p[i - 1]);
      if p[i - 1] in c.claimed && c.claimed[p[i - 1]] <= i - 1 { assert Handled(c, p[i], c.claimed[p[i - 1]] + 1); }
    }
  }

  /** Whatever lies nearer to the seeds than a claimed URL has been claimed, and each at its distance. */
  ghost predicate NearestFirst(web: Web, seeds: seq<Url>, claimed: map<Url, nat>) {
    && (forall u | u in claimed :: IsDistance(web, seeds, u, claimed[u]))
    && (forall u, v, k: nat | u in claimed && k < claimed[u] && Reaches(web, seeds, v, k) :: v in claimed)
  }

  lemma NearerIsClaimed(web: Web, seeds: seq<Url>, maxDepth: nat, c: Crawl, u: Url, v: Url, k: nat)
    requires Good(web, seeds, maxDepth, c) && u in c.claimed && k < c.claimed[u] && Reaches(web, seeds, v, k)
    ensures v in c.claimed && c.claimed[v] <= k
  {
    var level: nat :| Layered(c, level);
    var p :| Path(web, seeds, p) && |p| == k + 1 && p[k] == v;
    PathIsClaimedOrWaits(web, seeds, maxDepth, c, p, k);
  }

  /** At every moment, not only when no work is left. */
  lemma ClaimsAreNearestFirst(web: Web, seeds: seq<Url>, maxDepth: nat, c: Crawl)
    requires Good(web, seeds, maxDepth, c)
    ensures NearestFirst(web, seeds, c.claimed)
  {
    forall u, v, k: nat | u in c.claimed && k < c.claimed[u] && Reaches(web, seeds, v, k)
      ensures v in c.claimed && c.claimed[v] <= k
    {
      NearerIsClaimed(web, seeds, maxDepth, c, u, v, k);
    }
  }

  // ------------------------------------------------------------------------------------ the worker

  /** `try_claim` is one atomic test and set; URLs stand for their hashes. */
  class InMemorySharedDeduplicator {
    var claimed: set<Url>

    constructor ()
      ensures claimed == {}
    {
      claimed := {};
    }

    method TryClaim(url: Url) returns (won: bool)
      modifies this
      ensures won <==> url !in old(claimed)
      ensures claimed == old(claimed) + {url}
    {
      won := url !in claimed;
      claimed := claimed + {url};
    }
  }

  function Payloads(messages: seq<Message<FrontierJob>>): seq<FrontierJob> {
    seq(|messages|, i requires 0 <= i < |messages| => messages[i].payload)
  }

  /** The jobs in the queue that the group has not been handed yet. */
  function Waiting(q: Streams<FrontierJob>, stream: string, group: string): seq<FrontierJob>
    requires HasGroup(q, stream, group)
  {
    var s := q[stream];
    if s.groups[group].cursor <= |s.entries| then Payloads(s.entries[s.groups[group].cursor..]) else []
  }

  ghost predicate Ready(q: Streams<FrontierJob>, stream: string, group: string) {
    HasGroup(q, stream, group) && q[stream].groups[group].cursor <= |q[stream].entries|
  }

  lemma PublishingAppends(q: Streams<FrontierJob>, stream: string, group: string, job: FrontierJob)
    requires Ready(q, stream, group)
    ensures var q' := Publishing(q, stream, job);
            Ready(q', stream, group) && Waiting(q', stream, group) == Waiting(q, stream, group) + [job]
  {
  }

  lemma ConsumingTakesTheOldest(q: Streams<FrontierJob>, stream: string, group: string, count: nat)
    requires Ready(q, stream, group) && count > 0
    ensures var q' := Consuming(q, stream, group, count);
            var taken := New(q[stream].entries, q[stream].groups[group], count);
            && Ready(q', stream, group)
            && Waiting(q, stream, group) == Payloads(taken) + Waiting(q', stream, group)
            && (taken == [] ==> Waiting(q, stream, group) == [])
  {
  }

  lemma AckingChangesNoWork(q: Streams<FrontierJob>, stream: string, group: string, id: MessageId)
    requires Ready(q, stream, group)
    ensures var q' := Acking(q, stream, group, id);
            Ready(q', stream, group) && Waiting(q', stream, group) == Waiting(q, stream, group)
  {
  }

  datatype Config = Config(seeds: seq<Url>, stream: string, group: string, workerId: string, maxDepth: nat,
                           maxPages: Option<nat>, batchSize: nat, idlePolls: nat)

  datatype WorkerStats = WorkerStats(pagesCrawled: nat, urlsDiscarded: nat, urlsSkippedDuplicate: nat)

  class CrawlWorker {
    const config: Config
    const web: Web
    const queue: InMemoryMessageQueue<FrontierJob>
    const dedup: InMemorySharedDeduplicator
    var pages: seq<PageRecord>
    var stats: WorkerStats
    ghost var depths: map<Url, nat>

    constructor (config: Config, web: Web, queue: InMemoryMessageQueue<FrontierJob>, dedup: InMemorySharedDeduplicator)
      ensures this.config == config && this.web == web && this.queue == queue && this.dedup == dedup
      ensures pages == [] && stats == WorkerStats(0, 0, 0) && depths == map[]
    {
      this.config, this.web, this.queue, this.dedup := config, web, queue, dedup;
      pages, stats, depths := [], WorkerStats(0, 0, 0), map[];
    }

    ghost predicate Valid()
      reads this, queue, dedup
    {
      && Ready(queue.streams, config.stream, config.group)
      && dedup.claimed == depths.Keys
      && stats.pagesCrawled == |pages|
    }

    ghost function State(held: seq<FrontierJob>): Crawl
      requires Valid()
      reads this, queue, dedup
    {
      Crawl(held + Waiting(queue.streams, config.stream, config.group), depths, pages)
    }

    predicate ReachedMaxPages()
      reads this
    {
      config.maxPages.Some? && stats.pagesCrawled >= config.maxPages.value
    }

    method PublishJobs(jobs: seq<FrontierJob>)
      requires Valid()
      modifies queue
      ensures Valid()
      ensures Waiting(queue.streams, config.stream, config.group)
              == old(Waiting(queue.streams, config.stream, config.group)) + jobs
    {
      ghost var was := Waiting(queue.streams, config.stream, config.group);
      for i := 0 to |jobs|
        invariant Valid()
        invariant Waiting(queue.streams, config.stream, config.group) == was + jobs[..i]
      {
        PublishingAppends(queue.streams, config.stream, config.group, jobs[i]);
        PrefixMore(jobs, i);
        Associative(was, jobs[..i], [jobs[i]]);
        var id := queue.Publish(config.stream, jobs[i]);
      }
      assert jobs[..|jobs|] == jobs;
    }

    /** `_process_job`, where `rest` is what the worker still holds of its batch. */
    method ProcessJob(job: FrontierJob, ghost rest: seq<FrontierJob>)
      requires Valid()
      modifies this, queue, dedup
      ensures Valid()
      ensures old(State([job] + rest)).work != []
      ensures State(rest) == Process(web, config.maxDepth, old(State([job] + rest)))
      ensures old(depths.Keys) <= depths.Keys && job.url in depths
      ensures job.url in old(depths) ==>
                Waiting(queue.streams, config.stream, config.group)
                    == old(Waiting(queue.streams, config.stream, config.group))
      ensures |pages| <= |old(pages)| + 1
    {
      ghost var waiting := Waiting(queue.streams, config.stream, config.group);
      assert ([job] + rest + waiting)[1..] == rest + waiting;
      var won := dedup.TryClaim(job.url);
      if !won {
        assert dedup.claimed == depths.Keys;
        stats := stats.(urlsSkippedDuplicate := stats.urlsSkippedDuplicate + 1);
        return;
      }
      depths := depths[job.url := job.depth];
      assert rest + waiting + [] == rest + waiting;
      var visit := Visit(web, job.url);
      if !visit.Fetched? {
        stats := stats.(urlsDiscarded := stats.urlsDiscarded + 1);
        assert Discovered(web, config.maxDepth, job) == [];
        return;
      }
      pages := pages + [PageRecord(job.url, job.depth, visit.outlinks)];
      stats := stats.(pagesCrawled := stats.pagesCrawled + 1);
      if job.depth < config.maxDepth {
        PublishJobs(Jobs(visit.outlinks, job.depth + 1, Some(job.url)));
      }
      assert rest + (waiting + Discovered(web, config.maxDepth, job))
          == rest + waiting + Discovered(web, config.maxDepth, job);
    }

    /** What `run` keeps, unless the page cap has made it drop work it was holding. */
    ghost predicate Crawling(held: seq<FrontierJob>)
      requires Valid()
      reads this, queue, dedup
    {
      && Sound(web, config.seeds, config.maxDepth, State(held))
      && PagesMatch(web, State(held)) && NearestFirst(web, config.seeds, depths)
      && (config.maxPages.Some? ==> |pages| <= config.maxPages.value)
    }

    ghost function Waits(): seq<FrontierJob>
      requires Valid()
      reads this, queue, dedup
    {
      Waiting(queue.streams, config.stream, config.group)
    }

    ghost predicate OnCourse(held: seq<FrontierJob>)
      requires Valid()
      reads this, queue, dedup
    {
      Good(web, config.seeds, config.maxDepth, State(held)) && Crawling(held)
    }

    method HandleMessage(message: Message<FrontierJob>, ghost rest: seq<FrontierJob>)
      requires Valid() && !ReachedMaxPages() && OnCourse([message.payload] + rest)
      modifies this, queue, dedup
      ensures Valid() && OnCourse(rest)
      ensures old(depths.Keys) <= depths.Keys
      ensures depths.Keys == old(depths.Keys) ==> Waits() == old(Waits())
    {
      ghost var before := State([message.payload] + rest);
      assert before.work[0] == message.payload;
      ProcessKeepsGood(web, config.seeds, config.maxDepth, before);
      ProcessJob(message.payload, rest);
      ClaimsAreNearestFirst(web, config.seeds, config.maxDepth, State(rest));
      AckingChangesNoWork(queue.streams, config.stream, config.group, message.id);
      queue.Ack(config.stream, config.group, message.id);
    }

    /** Processes one batch; stops early only when the page cap is reached. */
    method ProcessBatch(messages: seq<Message<FrontierJob>>)
      requires Valid() && !ReachedMaxPages() && OnCourse(Payloads(messages))
      modifies this, queue, dedup
      ensures Valid() && Crawling([])
      ensures !ReachedMaxPages() ==> OnCourse([])
      ensures old(depths.Keys) <= depths.Keys
      ensures depths.Keys == old(depths.Keys) ==> Waits() == old(Waits())
    {
      ghost var held := Payloads(messages);
      var i := 0;
      while i < |messages| && !ReachedMaxPages()
        invariant i <= |messages| && held == Payloads(messages)[i..]
        invariant Valid() && OnCourse(held)
        invariant old(depths.Keys) <= depths.Keys
        invariant depths.Keys == old(depths.Keys) ==> Waits() == old(Waits())
      {
        FirstOf(held, messages[i]);
        HandleMessage(messages[i], held[1..]);
        held := held[1..];
        i := i + 1;
      }
      DroppingIsSound(held);
      assert i == |messages| ==> held == [];
    }

    lemma FirstOf(held: seq<FrontierJob>, message: Message<FrontierJob>)
      requires Valid() && held != [] && held[0] == message.payload && OnCourse(held)
      ensures OnCourse([message.payload] + held[1..])
    {
      assert [message.payload] + held[1..] == held;
    }

    lemma DroppingIsSound(held: seq<FrontierJob>)
      requires Valid() && OnCourse(held)
      ensures Crawling([])
    {
      var work := State([]).work;
      assert forall j | j in work :: j in State(held).work;
    }

    /** `run` on a frontier and a deduplicator of its own. */
    method Run()
      requires config.stream !in queue.streams && dedup.claimed == {} && depths == map[]
      requires pages == [] && stats.pagesCrawled == 0
      requires config.batchSize > 0 && config.idlePolls > 0 && config.maxPages != Some(0)
      modifies this, queue, dedup
      ensures Valid()
      ensures forall u | u in dedup.claimed :: Within(web, config.seeds, u, config.maxDepth)
      ensures PagesMatch(web, State([]))
      ensures depths.Keys == dedup.claimed && NearestFirst(web, config.seeds, depths)
      ensures config.maxPages.Some? ==> |pages| <= config.maxPages.value
      ensures (config.maxPages.Some? && |pages| == config.maxPages.value)
              || forall u | Within(web, config.seeds, u, config.maxDepth) :: u in dedup.claimed
    {
      queue.EnsureGroup(config.stream, config.group);
      SeedFrontier();
      PollUntilIdle();
      SoundIsWithin();
      if !ReachedMaxPages() { NothingLeftIsExact(); }
    }

    ghost function Unclaimed(): set<Url>
      reads this
    {
      Universe(web, config.seeds) - depths.Keys
    }

    method PollUntilIdle()
      requires Valid() && Crawling([]) && OnCourse([])
      requires config.batchSize > 0 && config.idlePolls > 0
      modifies this, queue, dedup
      ensures Valid() && Crawling([])
      ensures !ReachedMaxPages() ==> OnCourse([]) && Waits() == []
    {
      var idle := 0;
      while !ReachedMaxPages() && idle < config.idlePolls
        invariant Valid() && Crawling([])
        invariant !ReachedMaxPages() ==> OnCourse([])
        invariant idle > 0 ==> !ReachedMaxPages() && Waits() == []
        decreases Unclaimed(), |Waits()|, config.idlePolls - idle
      {
        var empty := Poll();
        idle := if empty then idle + 1 else 0;
      }
    }

    lemma NothingLeftIsExact()
      requires Valid() && OnCourse([]) && Waits() == []
      ensures forall u | Within(web, config.seeds, u, config.maxDepth) :: u in dedup.claimed
      ensures forall u | u in depths :: IsDistance(web, config.seeds, u, depths[u])
    {
      EmptyWorkIsExact(web, config.seeds, config.maxDepth, State([]));
    }

    /** One turn of the loop: a poll, and the batch it returns. */
    method Poll() returns (empty: bool)
      requires Valid() && OnCourse([]) && !ReachedMaxPages() && config.batchSize > 0
      modifies this, queue, dedup
      ensures Valid() && Crawling([])
      ensures !ReachedMaxPages() ==> OnCourse([])
      ensures Unclaimed() < old(Unclaimed()) || Unclaimed() == old(Unclaimed())
      ensures empty ==> depths == old(depths) && pages == old(pages) && stats == old(stats)
                        && Waits() == [] && old(Waits()) == [] && !ReachedMaxPages()
      ensures !empty && Unclaimed() == old(Unclaimed()) ==> |Waits()| < |old(Waits())|
    {
      ghost var waiting := Waits();
      ConsumingTakesTheOldest(queue.streams, config.stream, config.group, config.batchSize);
      var r := queue.Consume(config.stream, config.group, config.batchSize);
      var messages := r.value;
      empty := messages == [];
      assert [] + waiting == waiting && Payloads(messages) + Waits() == waiting;
      assert State(Payloads(messages)) == old(State([]));
      if !empty {
        ProcessBatch(messages);
      } else {
        assert Payloads(messages) == [];
      }
      ClaimedAreInUniverse();
      assert depths.Keys == Universe(web, config.seeds) - Unclaimed();
    }

    lemma SoundIsWithin()
      requires Valid() && Crawling([])
      ensures forall u | u in dedup.claimed :: Within(web, config.seeds, u, config.maxDepth)
    {
      assert State([]).claimed == depths;
    }

    lemma ClaimedAreInUniverse()
      requires Valid() && Crawling([])
      ensures depths.Keys <= Universe(web, config.seeds)
    {
      forall u | u in depths.Keys ensures u in Universe(web, config.seeds) {
        assert u in State([]).claimed;
        ReachedIsInUniverse(web, config.seeds, u, depths[u]);
      }
    }

    method SeedFrontier()
      requires Valid() && Waiting(queue.streams, config.stream, config.group) == []
      requires depths == map[] && pages == []
      modifies queue
      ensures Valid() && Crawling([]) && Good(web, config.seeds, config.maxDepth, State([]))
    {
      PublishJobs(Jobs(config.seeds, 0, None));
      ghost var c := State([]);
      ghost var jobs := Jobs(config.seeds, 0, None);
      assert c.work == jobs;
      forall j | j in c.work ensures Reaches(web, config.seeds, j.url, 0) {
        SeedsAreReached(web, config.seeds, j.url);
      }
      forall s | s in config.seeds ensures Handled(c, s, 0) {
        var i :| 0 <= i < |config.seeds| && config.seeds[i] == s;
        assert jobs[i].url == s;
      }
      assert Layered(c, 0);
    }
  }
}
