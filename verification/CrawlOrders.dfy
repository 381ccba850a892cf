/**
 Which webs several crawl workers are bound to crawl completely. A crawl is an order of pages, each with the depth at
 which it was reached along a link of an earlier one: every run of the workers amounts to one, and with enough workers
 every one of them can happen (src/beacon_scale_infra/crawl/worker.py).
 */
module CrawlOrders {
  import opened Wrappers
  import opened Collections
  import opened CrawlGraph
  import opened CrawlCluster

  /** A page before position `n` has a link to the URL and is one level above. */
  ghost predicate LinkedFrom(s: Setup, order: seq<Job>, n: nat, j: Job)
    requires n <= |order|
  {
    exists k :: 0 <= k < n && order[k].depth < s.maxDepth && order[k].depth + 1 == j.depth
                && j.url in Outlinks(s.web, order[k].url)
  }

  ghost predicate HasOrigin(s: Setup, order: seq<Job>, n: nat, j: Job)
    requires n <= |order|
  {
    (j.depth == 0 && j.url in s.seeds) || LinkedFrom(s, order, n, j)
  }

  /** Pages that can be fetched, each once, each a seed or linked from an earlier page. */
  ghost predicate IsOrder(s: Setup, order: seq<Job>) {
    && (forall i, k | 0 <= i < k < |order| :: order[i].url != order[k].url)
    && (forall i | 0 <= i < |order| ::
          order[i].depth <= s.maxDepth && Visit(s.web, order[i].url).Fetched? && HasOrigin(s, order, i, order[i]))
  }

  /** A URL that such a crawl claims: a seed, or a link that it follows. */
  ghost predicate Claims(s: Setup, order: seq<Job>, u: Url) {
    || u in s.seeds
    || exists k :: 0 <= k < |order| && order[k].depth < s.maxDepth && u in Outlinks(s.web, order[k].url)
  }

  ghost predicate Lists(order: seq<Job>, u: Url) {
    exists i :: 0 <= i < |order| && order[i].url == u
  }

  /** It goes on until there is no page left to fetch. */
  ghost predicate IsCrawl(s: Setup, order: seq<Job>) {
    IsOrder(s, order) && forall u | Claims(s, order, u) && Visit(s.web, u).Fetched? :: Lists(order, u)
  }

  ghost predicate Covers(s: Setup, order: seq<Job>) {
    forall u | Within(s.web, s.seeds, u, s.maxDepth) :: Claims(s, order, u)
  }

  // -------------------------------------------------------------------------- every run is such a crawl

  function OrderOf(pages: seq<CrawlCluster.Page>): seq<Job> {
    seq(|pages|, i requires 0 <= i < |pages| => Job(pages[i].url, pages[i].depth))
  }

  ghost predicate PhaseHasOrigins(s: Setup, order: seq<Job>, p: Phase) {
    && (forall j | j in JobsOf(p) :: HasOrigin(s, order, |order|, j))
    && (p.Fetching? ==> HasOrigin(s, order, |order|, p.job))
  }

  ghost predicate Ordered(s: Setup, c: Cluster) {
    var order := OrderOf(c.pages);
    && IsOrder(s, order)
    && (forall j | j in c.queue :: HasOrigin(s, order, |order|, j))
    && (forall w | 0 <= w < |c.workers| :: PhaseHasOrigins(s, order, c.workers[w]))
    && (forall u | u in c.claimed :: Claims(s, order, u))
  }

  lemma OriginStays(s: Setup, order: seq<Job>, more: seq<Job>, j: Job)
    requires HasOrigin(s, order, |order|, j)
    ensures HasOrigin(s, order + more, |order + more|, j)
  {
    if LinkedFrom(s, order, |order|, j) {
      var k :| 0 <= k < |order| && order[k].depth < s.maxDepth && order[k].depth + 1 == j.depth
               && j.url in Outlinks(s.web, order[k].url);
      assert (order + more)[k] == order[k];
    }
  }

  lemma ClaimStays(s: Setup, order: seq<Job>, more: seq<Job>, u: Url)
    requires Claims(s, order, u)
    ensures Claims(s, order + more, u)
  {
    if u !in s.seeds {
      var k :| 0 <= k < |order| && order[k].depth < s.maxDepth && u in Outlinks(s.web, order[k].url);
      assert (order + more)[k] == order[k];
    }
  }

  lemma OriginIsClaimed(s: Setup, order: seq<Job>, j: Job)
    requires HasOrigin(s, order, |order|, j)
    ensures Claims(s, order, j.url)
  {
  }

  lemma OrderGrows(s: Setup, order: seq<Job>, j: Job)
    requires IsOrder(s, order) && HasOrigin(s, order, |order|, j) && j.depth <= s.maxDepth
    requires Visit(s.web, j.url).Fetched? && !Lists(order, j.url)
    ensures IsOrder(s, order + [j])
  {
    var more := order + [j];
    forall i | 0 <= i < |more| ensures HasOrigin(s, more, i, more[i]) {
      if i < |order| { assert more[..i] == order[..i] && HasOrigin(s, order, i, order[i]); }
      EarlierOrigin(s, order, j, i, more[i]);
    }
  }

  lemma EarlierOrigin(s: Setup, order: seq<Job>, last: Job, i: nat, j: Job)
    requires i <= |order| && HasOrigin(s, order, i, j)
    ensures HasOrigin(s, order + [last], i, j)
  {
    if LinkedFrom(s, order, i, j) {
      var k :| 0 <= k < i && order[k].depth < s.maxDepth && order[k].depth + 1 == j.depth
               && j.url in Outlinks(s.web, order[k].url);
      assert (order + [last])[k] == order[k];
    }
  }

  /** The page that this step writes, if any. */
  function Written(s: Setup, c: Cluster, w: nat): seq<Job>
    requires w < |c.workers|
  {
    var p := c.workers[w];
    if p.Fetching? && Visit(s.web, p.job.url).Fetched? then [p.job] else []
  }

  lemma StepWrites(s: Setup, c: Cluster, w: nat)
    requires w < |c.workers| && c.workers[w] != Stopped
    ensures OrderOf(Step(s, c, w).pages) == OrderOf(c.pages) + Written(s, c, w)
  {
  }

  lemma DerivedHasOrigin(s: Setup, c: Cluster, w: nat, j: Job)
    requires Ordered(s, c) && w < |c.workers| && c.workers[w] != Stopped && Derived(s, c, c.workers[w], j)
    ensures var order := OrderOf(Step(s, c, w).pages); HasOrigin(s, order, |order|, j)
  {
    var before, more, p := OrderOf(c.pages), Written(s, c, w), c.workers[w];
    StepWrites(s, c, w);
    assert PhaseHasOrigins(s, before, p);
    if j in c.queue || j in JobsOf(p) {
      OriginStays(s, before, more, j);
    } else {
      assert (before + more)[|before|] == p.job;
    }
  }

  lemma StepKeepsOrder(s: Setup, c: Cluster, w: nat)
    requires Inv(s, c) && Ordered(s, c) && w < |c.workers| && c.workers[w] != Stopped
    ensures IsOrder(s, OrderOf(Step(s, c, w).pages))
  {
    var before, p := OrderOf(c.pages), c.workers[w];
    StepWrites(s, c, w);
    if Written(s, c, w) == [] {
      assert before + [] == before;
    } else {
      assert PhaseHasOrigins(s, before, p) && PhaseIsSound(s, p);
      forall i | 0 <= i < |before| ensures before[i].url != p.job.url { assert c.pages[i].url in c.fetched; }
      OrderGrows(s, before, p.job);
    }
  }

  lemma StepKeepsClaimsOrdered(s: Setup, c: Cluster, w: nat)
    requires Ordered(s, c) && w < |c.workers| && c.workers[w] != Stopped
    ensures forall u | u in Step(s, c, w).claimed :: Claims(s, OrderOf(Step(s, c, w).pages), u)
  {
    var before, p := OrderOf(c.pages), c.workers[w];
    StepWrites(s, c, w);
    forall u | u in Step(s, c, w).claimed ensures Claims(s, before + Written(s, c, w), u) {
      if u !in c.claimed {
        assert PhaseHasOrigins(s, before, p) && p.held[0] in JobsOf(p);
        OriginIsClaimed(s, before, p.held[0]);
      }
      ClaimStays(s, before, Written(s, c, w), u);
    }
  }

  lemma StepKeepsPhases(s: Setup, c: Cluster, w: nat, v: nat)
    requires Sensible(s) && Ordered(s, c) && w < |c.workers| && c.workers[w] != Stopped && v < |c.workers|
    ensures PhaseHasOrigins(s, OrderOf(Step(s, c, w).pages), Step(s, c, w).workers[v])
  {
    var before, c' := OrderOf(c.pages), Step(s, c, w);
    var order := OrderOf(c'.pages);
    StepWrites(s, c, w);
    assert PhaseHasOrigins(s, before, c.workers[v]) && PhaseHasOrigins(s, before, c.workers[w]);
    if v == w {
      forall j | j in JobsOf(c'.workers[w]) ensures HasOrigin(s, order, |order|, j) {
        JobsComeFromJobs(s, c, w, j);
        DerivedHasOrigin(s, c, w, j);
      }
      var p := c.workers[w];
      if c'.workers[w].Fetching? {
        assert p.held[0] in JobsOf(p);
        OriginStays(s, before, Written(s, c, w), p.held[0]);
      }
    } else {
      assert c'.workers[v] == c.workers[v];
      forall j | HasOrigin(s, before, |before|, j) ensures HasOrigin(s, order, |order|, j) {
        OriginStays(s, before, Written(s, c, w), j);
      }
    }
  }

  lemma StepStaysOrdered(s: Setup, c: Cluster, w: nat)
    requires Sensible(s) && Inv(s, c) && Ordered(s, c) && w < |c.workers| && c.workers[w] != Stopped
    ensures Ordered(s, Step(s, c, w))
  {
    var c' := Step(s, c, w);
    var order := OrderOf(c'.pages);
    StepKeepsOrder(s, c, w);
    StepKeepsClaimsOrdered(s, c, w);
    forall j | j in c'.queue ensures HasOrigin(s, order, |order|, j) {
      JobsComeFromJobs(s, c, w, j);
      DerivedHasOrigin(s, c, w, j);
    }
    forall v | 0 <= v < |c'.workers| ensures PhaseHasOrigins(s, order, c'.workers[v]) { StepKeepsPhases(s, c, w, v); }
  }

  lemma {:induction false} LeadsStaysOrdered(s: Setup, c: Cluster, d: Cluster, steps: nat)
    requires Sensible(s) && Inv(s, c) && Ordered(s, c) && Leads(s, c, d, steps)
    ensures Inv(s, d) && Ordered(s, d)
    decreases steps
  {
    if steps > 0 {
      var b, w: nat :| Leads(s, c, b, steps - 1) && Active(b, w) && d == Step(s, b, w);
      LeadsStaysOrdered(s, c, b, steps - 1);
      StepKeepsInv(s, b, w);
      StepStaysOrdered(s, b, w);
    }
  }

  lemma EveryRunStaysOrdered(s: Setup, n: nat, c: Cluster)
    requires Sensible(s) && n > 0 && Reachable(s, n, c)
    ensures Inv(s, c) && Ordered(s, c)
  {
    StartIsGood(s, n);
    var steps: nat :| Leads(s, Start(s, n), c, steps);
    LeadsStaysOrdered(s, Start(s, n), c, steps);
  }

  lemma AtTheEndClaimsAreClaimed(s: Setup, c: Cluster, u: Url)
    requires Sensible(s) && Inv(s, c) && Done(c) && Claims(s, OrderOf(c.pages), u)
    ensures u in c.claimed
  {
    AtTheEndLinksAreClaimed(s, c);
    if u !in s.seeds {
      var k :| 0 <= k < |c.pages| && c.pages[k].depth < s.maxDepth && u in Outlinks(s.web, c.pages[k].url);
      assert c.pages[k] in c.pages && PageIsReal(s, c.pages[k]);
    }
  }

  lemma AtTheEndClaimsAreListed(s: Setup, c: Cluster, u: Url)
    requires Sensible(s) && Inv(s, c) && Done(c) && u in c.claimed && Visit(s.web, u).Fetched?
    ensures Lists(OrderOf(c.pages), u)
  {
    AtTheEndLinksAreClaimed(s, c);
    var i :| 0 <= i < |c.pages| && c.pages[i].url == u;
    assert OrderOf(c.pages)[i].url == u;
  }

  /** Every run that has ended has made a crawl, and claimed exactly what that crawl claims. */
  lemma EveryRunIsACrawl(s: Setup, n: nat, c: Cluster)
    requires Sensible(s) && n > 0 && Reachable(s, n, c) && Done(c)
    ensures IsCrawl(s, OrderOf(c.pages)) && forall u :: u in c.claimed <==> Claims(s, OrderOf(c.pages), u)
  {
    EveryRunStaysOrdered(s, n, c);
    forall u | Claims(s, OrderOf(c.pages), u)
      ensures u in c.claimed && (Visit(s.web, u).Fetched? ==> Lists(OrderOf(c.pages), u))
    {
      AtTheEndClaimsAreClaimed(s, c, u);
      if Visit(s.web, u).Fetched? { AtTheEndClaimsAreListed(s, c, u); }
    }
  }

  // ----------------------------------------------------------- with enough workers, every crawl can happen

  /** The same, and another worker that has not begun yet. */
  function Joined(s: Setup, c: Cluster): Cluster {
    c.(workers := c.workers + [Seeding(s.seeds)])
  }

  /** A set of clusters that neither a request nor another worker leads out of. */
  ghost predicate Open(s: Setup, all: iset<Cluster>) {
    Closed(s, all) && forall c | c in all :: Joined(s, c) in all
  }

  ghost predicate CanOccur(s: Setup, c: Cluster) {
    exists n: nat :: n > 0 && Reachable(s, n, c)
  }

  lemma StepOfJoined(s: Setup, c: Cluster, w: nat)
    requires Active(c, w)
    ensures Active(Joined(s, c), w) && Step(s, Joined(s, c), w) == Joined(s, Step(s, c, w))
  {
    var p := Step(s, c, w).workers[w];
    assert (c.workers + [Seeding(s.seeds)])[w := p] == c.workers[w := p] + [Seeding(s.seeds)];
  }

  /** Whatever workers do, they can do with one more who has not begun. */
  lemma {:induction false} LeadsWithOneMore(s: Setup, n: nat, c: Cluster, steps: nat)
    requires Leads(s, Start(s, n), c, steps)
    ensures Leads(s, Start(s, n + 1), Joined(s, c), steps)
    decreases steps
  {
    if steps == 0 {
      assert Start(s, n + 1).workers == Joined(s, Start(s, n)).workers;
    } else {
      var b, w: nat :| Leads(s, Start(s, n), b, steps - 1) && Active(b, w) && c == Step(s, b, w);
      LeadsWithOneMore(s, n, b, steps - 1);
      StepOfJoined(s, b, w);
    }
  }

  lemma OccurrencesAreOpen(s: Setup) returns (all: iset<Cluster>)
    ensures Open(s, all) && Start(s, 1) in all && forall c :: c in all <==> CanOccur(s, c)
  {
    all := iset c | CanOccur(s, c);
    ReachableIsClosed(s, 1);
    forall c, w: nat | c in all && Active(c, w) ensures Step(s, c, w) in all {
      var n: nat :| n > 0 && Reachable(s, n, c);
      ReachableIsClosed(s, n);
      assert c in iset d | Reachable(s, n, d);
    }
    forall c | c in all ensures Joined(s, c) in all {
      var n: nat :| n > 0 && Reachable(s, n, c);
      var steps: nat :| Leads(s, Start(s, n), c, steps);
      LeadsWithOneMore(s, n, c, steps);
      assert Reachable(s, n + 1, Joined(s, c));
    }
  }

  /** From `c` to `d` nothing has been claimed or written, and nobody but worker `w` and newcomers has moved. */
  ghost predicate OnlyMoved(c: Cluster, d: Cluster, w: int) {
    && d.claimed == c.claimed && d.pages == c.pages && |c.workers| <= |d.workers|
    && forall v | 0 <= v < |c.workers| && v != w :: d.workers[v] == c.workers[v]
  }

  /** A worker publishes the next `k` of its seeds. */
  lemma {:induction false} PublishesSeeds(s: Setup, all: iset<Cluster>, c: Cluster, w: nat, left: seq<Url>, k: nat)
      returns (d: Cluster)
    requires Open(s, all) && c in all && w < |c.workers| && c.workers[w] == Seeding(left) && k <= |left|
    ensures d in all && OnlyMoved(c, d, w) && |d.workers| == |c.workers|
    ensures d.workers[w] == Seeding(left[k..]) && d.queue == c.queue + JobsFor(left[..k], 0)
    decreases k
  {
    if k == 0 {
      d := c;
    } else {
      var b := Step(s, c, w);
      d := PublishesSeeds(s, all, b, w, left[1..], k - 1);
      assert left[1..][k - 1..] == left[k..];
      assert JobsFor(left[..k], 0) == [Job(left[0], 0)] + JobsFor(left[1..][..k - 1], 0);
      Associative(c.queue, [Job(left[0], 0)], JobsFor(left[1..][..k - 1], 0));
    }
  }

  /** A newcomer publishes all its seeds, takes a batch and is slow. */
  lemma SomeoneTakesABatch(s: Setup, all: iset<Cluster>, c: Cluster) returns (d: Cluster)
    requires Sensible(s) && Open(s, all) && c in all && c.queue != []
    ensures d in all && OnlyMoved(c, d, -1) && |d.workers| == |c.workers| + 1
    ensures var q := c.queue + JobsFor(s.seeds, 0);
            var n := Min(s.batchSize, |q|);
            d.queue == q[n..] && d.workers[|c.workers|] == Working(q[..n])
  {
    var w := |c.workers|;
    d := PublishesSeeds(s, all, Joined(s, c), w, s.seeds, |s.seeds|);
    assert s.seeds[..|s.seeds|] == s.seeds;
    d := Step(s, d, w);
    d := Step(s, d, w);
  }

  /** Newcomers publish a seed each, until the queue has this length. */
  lemma {:induction false} QueueGrows(s: Setup, all: iset<Cluster>, c: Cluster, length: nat) returns (d: Cluster)
    requires Open(s, all) && c in all && s.seeds != [] && |c.queue| <= length
    ensures d in all && OnlyMoved(c, d, -1) && |d.queue| == length
    decreases length - |c.queue|
  {
    if |c.queue| == length {
      d := c;
    } else {
      var b := PublishesSeeds(s, all, Joined(s, c), |c.workers|, s.seeds, 1);
      d := QueueGrows(s, all, b, length);
    }
  }

  /** The worker will look at this job next. */
  predicate LooksAt(p: Phase, j: Job) {
    p.Working? && p.held != [] && p.held[0] == j
  }

  ghost predicate SomeoneLooksAt(c: Cluster, from: nat, j: Job) {
    exists w :: from <= w < |c.workers| && LooksAt(c.workers[w], j)
  }

  /** A job that waits behind full batches comes to be the first of a newcomer's batch. */
  lemma {:induction false} BatchesAreTaken(s: Setup, all: iset<Cluster>, c: Cluster, batches: nat, j: Job)
      returns (d: Cluster)
    requires Sensible(s) && Open(s, all) && c in all
    requires batches * s.batchSize < |c.queue| && c.queue[batches * s.batchSize] == j
    ensures d in all && OnlyMoved(c, d, -1) && SomeoneLooksAt(d, |c.workers|, j)
    decreases batches
  {
    var q, b := c.queue + JobsFor(s.seeds, 0), s.batchSize;
    d := SomeoneTakesABatch(s, all, c);
    if batches == 0 {
      assert LooksAt(d.workers[|c.workers|], j);
    } else {
      OneBatchLess(batches, b);
      var e := d;
      assert e.queue == q[b..] && e.queue[(batches - 1) * b] == q[batches * b];
      d := BatchesAreTaken(s, all, e, batches - 1, j);
      var w :| |e.workers| <= w < |d.workers| && LooksAt(d.workers[w], j);
    }
  }

  lemma OneBatchLess(batches: nat, b: nat)
    requires batches > 0
    ensures (batches - 1) * b + b == batches * b && b <= batches * b
  {
  }

  /** A multiple of the batch size to which a queue can grow. */
  lemma FullBatches(b: nat, length: nat) returns (batches: nat)
    requires b > 0
    ensures length <= batches * b
  {
    batches := length;
    assert length <= length * b;
  }

  /** A worker that publishes a link can have a newcomer look at it. */
  lemma HandsOver(s: Setup, all: iset<Cluster>, c: Cluster, w: nat, parent: Job, left: seq<Url>, held: seq<Job>)
      returns (d: Cluster)
    requires Sensible(s) && Open(s, all) && c in all && s.seeds != []
    requires w < |c.workers| && c.workers[w] == Publishing(parent, left, held) && left != []
    ensures d in all && OnlyMoved(c, d, w) && d.workers[w] == Publishing(parent, left[1..], held)
    ensures SomeoneLooksAt(d, |c.workers|, Job(left[0], parent.depth + 1))
  {
    var batches := FullBatches(s.batchSize, |c.queue|);
    d := QueueGrows(s, all, c, batches * s.batchSize);
    d := Step(s, d, w);
    d := BatchesAreTaken(s, all, d, batches, Job(left[0], parent.depth + 1));
  }

  /** And so with each of its links. */
  lemma {:induction false} HandsOverAll(s: Setup, all: iset<Cluster>, c: Cluster, w: nat, parent: Job, left: seq<Url>,
                                        held: seq<Job>)
      returns (d: Cluster)
    requires Sensible(s) && Open(s, all) && c in all && s.seeds != []
    requires w < |c.workers| && c.workers[w] == Publishing(parent, left, held)
    ensures d in all && OnlyMoved(c, d, w)
    ensures forall i | 0 <= i < |left| :: SomeoneLooksAt(d, |c.workers|, Job(left[i], parent.depth + 1))
    decreases |left|
  {
    if left == [] {
      d := c;
    } else {
      var b := HandsOver(s, all, c, w, parent, left, held);
      d := HandsOverAll(s, all, b, w, parent, left[1..], held);
      forall i | 0 <= i < |left| ensures SomeoneLooksAt(d, |c.workers|, Job(left[i], parent.depth + 1)) {
        if i == 0 {
          StillLooksAt(b, d, w, |c.workers|, Job(left[0], parent.depth + 1));
        } else {
          assert SomeoneLooksAt(d, |b.workers|, Job(left[1..][i - 1], parent.depth + 1));
        }
      }
    }
  }

  lemma StillLooksAt(c: Cluster, d: Cluster, w: int, from: nat, j: Job)
    requires OnlyMoved(c, d, w) && SomeoneLooksAt(c, from, j) && w < from
    ensures SomeoneLooksAt(d, from, j)
  {
    var v :| from <= v < |c.workers| && LooksAt(c.workers[v], j);
    assert d.workers[v] == c.workers[v];
  }

  /** A newcomer publishes this seed, and another one comes to look at it. */
  lemma SomeoneTakesTheSeed(s: Setup, all: iset<Cluster>, c: Cluster, i: nat) returns (d: Cluster)
    requires Sensible(s) && Open(s, all) && c in all && i < |s.seeds|
    ensures d in all && OnlyMoved(c, d, -1) && SomeoneLooksAt(d, |c.workers|, Job(s.seeds[i], 0))
  {
    var w := |c.workers|;
    d := PublishesSeeds(s, all, Joined(s, c), w, s.seeds, i);
    var batches := FullBatches(s.batchSize, |d.queue|);
    d := QueueGrows(s, all, d, batches * s.batchSize);
    d := Step(s, d, w);
    d := BatchesAreTaken(s, all, d, batches, Job(s.seeds[i], 0));
  }

  /** The links that are followed from this page. */
  function Followed(s: Setup, j: Job): seq<Url> {
    if j.depth < s.maxDepth then Outlinks(s.web, j.url) else []
  }

  function UrlsOf(order: seq<Job>): set<Url> {
    set j | j in order :: j.url
  }

  /** A worker writes the page of the job it looks at. */
  lemma WritesThePage(s: Setup, all: iset<Cluster>, c: Cluster, w: nat, j: Job) returns (d: Cluster)
    requires Open(s, all) && c in all && w < |c.workers| && LooksAt(c.workers[w], j)
    requires j.url !in c.claimed && Visit(s.web, j.url).Fetched?
    ensures d in all && d.claimed == c.claimed + {j.url} && OrderOf(d.pages) == OrderOf(c.pages) + [j]
    ensures |d.workers| == |c.workers| && forall v | 0 <= v < |c.workers| && v != w :: d.workers[v] == c.workers[v]
    ensures j.depth < s.maxDepth ==> d.workers[w] == Publishing(j, Followed(s, j), c.workers[w].held[1..])
  {
    d := Step(s, c, w);
    d := Step(s, d, w);
  }

  /** Worker `w` has crawled the page `j`, and others look at the links that are followed. */
  ghost predicate HasCrawled(s: Setup, c: Cluster, d: Cluster, j: Job, w: nat) {
    && d.claimed == c.claimed + {j.url} && OrderOf(d.pages) == OrderOf(c.pages) + [j]
    && w < |c.workers| <= |d.workers| && LooksAt(c.workers[w], j)
    && (forall v | 0 <= v < |c.workers| && v != w :: d.workers[v] == c.workers[v])
    && (forall i | 0 <= i < |Followed(s, j)| :: SomeoneLooksAt(d, 0, Job(Followed(s, j)[i], j.depth + 1)))
  }

  lemma CrawlsThePage(s: Setup, all: iset<Cluster>, c: Cluster, w: nat, j: Job) returns (d: Cluster)
    requires Sensible(s) && Open(s, all) && c in all && s.seeds != [] && w < |c.workers| && LooksAt(c.workers[w], j)
    requires j.url !in c.claimed && Visit(s.web, j.url).Fetched?
    ensures d in all && HasCrawled(s, c, d, j, w)
  {
    var b := WritesThePage(s, all, c, w, j);
    d := b;
    if j.depth < s.maxDepth {
      d := HandsOverAll(s, all, b, w, j, Followed(s, j), c.workers[w].held[1..]);
      forall i | 0 <= i < |Followed(s, j)| ensures SomeoneLooksAt(d, 0, Job(Followed(s, j)[i], j.depth + 1)) {
        assert SomeoneLooksAt(d, |b.workers|, Job(Followed(s, j)[i], j.depth + 1));
      }
    }
  }

  // ----------------------------------------------------------------------------- page by page in this order

  ghost predicate LinksAreLookedAt(s: Setup, page: Job, c: Cluster) {
    forall i | 0 <= i < |Followed(s, page)| ::
      Followed(s, page)[i] in c.claimed || SomeoneLooksAt(c, 0, Job(Followed(s, page)[i], page.depth + 1))
  }

  /** These pages have been crawled in this order and no others claimed; somebody looks at each of their links. */
  ghost predicate IsStage(s: Setup, done: seq<Job>, c: Cluster) {
    && OrderOf(c.pages) == done && c.claimed == UrlsOf(done)
    && forall page | page in done :: LinksAreLookedAt(s, page, c)
  }

  lemma LinksStayLookedAt(s: Setup, page: Job, c: Cluster, d: Cluster)
    requires LinksAreLookedAt(s, page, c) && OnlyMoved(c, d, -1)
    ensures LinksAreLookedAt(s, page, d)
  {
    forall i | 0 <= i < |Followed(s, page)| && Followed(s, page)[i] !in c.claimed
      ensures SomeoneLooksAt(d, 0, Job(Followed(s, page)[i], page.depth + 1))
    {
      StillLooksAt(c, d, -1, 0, Job(Followed(s, page)[i], page.depth + 1));
    }
  }

  lemma LinksAreLookedAtOrClaimed(s: Setup, page: Job, c: Cluster, d: Cluster, j: Job, w: nat)
    requires LinksAreLookedAt(s, page, c) && HasCrawled(s, c, d, j, w)
    ensures LinksAreLookedAt(s, page, d)
  {
    forall i | 0 <= i < |Followed(s, page)| && Followed(s, page)[i] !in d.claimed
      ensures SomeoneLooksAt(d, 0, Job(Followed(s, page)[i], page.depth + 1))
    {
      var link := Job(Followed(s, page)[i], page.depth + 1);
      var v :| 0 <= v < |c.workers| && LooksAt(c.workers[v], link);
      assert v != w && LooksAt(d.workers[v], link);
    }
  }

  lemma StageGoesOn(s: Setup, done: seq<Job>, c: Cluster, d: Cluster, j: Job, w: nat)
    requires IsStage(s, done, c) && HasCrawled(s, c, d, j, w)
    ensures IsStage(s, done + [j], d)
  {
    assert UrlsOf(done + [j]) == UrlsOf(done) + {j.url};
    forall page | page in done + [j] ensures LinksAreLookedAt(s, page, d) {
      if page in done { LinksAreLookedAtOrClaimed(s, page, c, d, j, w); }
    }
  }

  lemma StageStays(s: Setup, done: seq<Job>, c: Cluster, d: Cluster)
    requires IsStage(s, done, c) && OnlyMoved(c, d, -1)
    ensures IsStage(s, done, d)
  {
    forall page | page in done ensures LinksAreLookedAt(s, page, d) { LinksStayLookedAt(s, page, c, d); }
  }

  lemma NextIsNew(s: Setup, order: seq<Job>, n: nat)
    requires IsOrder(s, order) && n < |order|
    ensures order[n].url !in UrlsOf(order[..n]) && Visit(s.web, order[n].url).Fetched?
    ensures HasOrigin(s, order, n, order[n])
  {
    forall x | x in order[..n] ensures x.url != order[n].url {
      var k :| 0 <= k < n && order[..n][k] == x;
      assert order[k].url != order[n].url;
    }
  }

  lemma LinkIsLookedAt(s: Setup, order: seq<Job>, n: nat, c: Cluster, j: Job)
    requires n <= |order| && IsStage(s, order[..n], c) && LinkedFrom(s, order, n, j) && j.url !in c.claimed
    ensures SomeoneLooksAt(c, 0, j)
  {
    var k :| 0 <= k < n && order[k].depth < s.maxDepth && order[k].depth + 1 == j.depth
             && j.url in Outlinks(s.web, order[k].url);
    var i :| 0 <= i < |Outlinks(s.web, order[k].url)| && Outlinks(s.web, order[k].url)[i] == j.url;
    assert order[..n][k] == order[k] && LinksAreLookedAt(s, order[k], c) && Followed(s, order[k])[i] == j.url;
  }

  /** Somebody comes to look at the next page: it is a seed, or a link of an earlier page. */
  lemma SomeoneLooksAtTheNext(s: Setup, all: iset<Cluster>, order: seq<Job>, n: nat, c: Cluster) returns (d: Cluster)
    requires Sensible(s) && Open(s, all) && c in all && IsOrder(s, order) && n < |order| && IsStage(s, order[..n], c)
    ensures d in all && IsStage(s, order[..n], d) && SomeoneLooksAt(d, 0, order[n]) && d.claimed == c.claimed
  {
    var j := order[n];
    NextIsNew(s, order, n);
    if LinkedFrom(s, order, n, j) {
      LinkIsLookedAt(s, order, n, c, j);
      d := c;
    } else {
      var i :| 0 <= i < |s.seeds| && s.seeds[i] == j.url;
      d := SomeoneTakesTheSeed(s, all, c, i);
      StageStays(s, order[..n], c, d);
      assert SomeoneLooksAt(d, |c.workers|, j);
    }
  }

  lemma OnePageMore(s: Setup, all: iset<Cluster>, order: seq<Job>, n: nat, c: Cluster) returns (d: Cluster)
    requires Sensible(s) && Open(s, all) && c in all && s.seeds != []
    requires IsOrder(s, order) && n < |order| && IsStage(s, order[..n], c)
    ensures d in all && IsStage(s, order[..n + 1], d)
  {
    NextIsNew(s, order, n);
    var b := SomeoneLooksAtTheNext(s, all, order, n, c);
    var w :| 0 <= w < |b.workers| && LooksAt(b.workers[w], order[n]);
    d := CrawlsThePage(s, all, b, w, order[n]);
    StageGoesOn(s, order[..n], b, d, order[n], w);
    PrefixMore(order, n);
  }

  lemma OnlySeedsBegin(s: Setup, order: seq<Job>)
    requires IsOrder(s, order) && order != []
    ensures s.seeds != []
  {
    assert HasOrigin(s, order, 0, order[0]);
  }

  lemma {:induction false} PagesInOrder(s: Setup, all: iset<Cluster>, order: seq<Job>, n: nat) returns (c: Cluster)
    requires Sensible(s) && Open(s, all) && Start(s, 1) in all && IsOrder(s, order) && n <= |order|
    ensures c in all && IsStage(s, order[..n], c)
    decreases n
  {
    if n == 0 {
      c := Start(s, 1);
    } else {
      OnlySeedsBegin(s, order);
      c := PagesInOrder(s, all, order, n - 1);
      c := OnePageMore(s, all, order, n - 1, c);
    }
  }

  // ------------------------------------------------------------------------- and then all workers end

  /** The pages of a whole crawl have been written, and nobody fetches another. */
  ghost predicate IsOver(s: Setup, order: seq<Job>, c: Cluster) {
    && Inv(s, c) && Ordered(s, c) && OrderOf(c.pages) == order
    && forall w | 0 <= w < |c.workers| && c.workers[w].Fetching? :: !Visit(s.web, c.workers[w].job.url).Fetched?
  }

  /** What is left to be claimed comes to nothing. */
  lemma NothingIsLeftToFetch(s: Setup, order: seq<Job>, c: Cluster, w: nat, j: Job)
    requires IsCrawl(s, order) && IsOver(s, order, c) && w < |c.workers| && j in JobsOf(c.workers[w])
    requires j.url !in c.claimed
    ensures !Visit(s.web, j.url).Fetched?
  {
    assert PhaseHasOrigins(s, order, c.workers[w]);
    OriginIsClaimed(s, order, j);
    forall i | 0 <= i < |order| ensures order[i].url in c.claimed { assert c.pages[i].url in c.fetched; }
  }

  lemma StepStaysOver(s: Setup, order: seq<Job>, c: Cluster, w: nat)
    requires Sensible(s) && IsCrawl(s, order) && IsOver(s, order, c) && Active(c, w)
    ensures IsOver(s, order, Step(s, c, w))
  {
    var d := Step(s, c, w);
    StepKeepsInv(s, c, w);
    StepStaysOrdered(s, c, w);
    StepWrites(s, c, w);
    assert OrderOf(c.pages) + [] == OrderOf(c.pages);
    forall v | 0 <= v < |d.workers| && d.workers[v].Fetching? ensures !Visit(s.web, d.workers[v].job.url).Fetched? {
      if v != w {
        assert d.workers[v] == c.workers[v];
      } else {
        NothingIsLeftToFetch(s, order, c, w, c.workers[w].held[0]);
      }
    }
  }

  /** If every step is progress, some run comes to an end. */
  lemma {:induction false} RunsOut(s: Setup, good: iset<Cluster>, c: Cluster) returns (d: Cluster)
    requires Progresses(s, good) && c in good
    ensures d in good && Done(d)
    decreases Unclaimed(s, c), Outstanding(s, c), PatienceLeft(s, c)
  {
    d := c;
    if !Done(c) {
      var w :| 0 <= w < |c.workers| && c.workers[w] != Stopped;
      assert IsProgress(s, c, Step(s, c, w));
      d := RunsOut(s, good, Step(s, c, w));
    }
  }

  lemma CrawlEnds(s: Setup, all: iset<Cluster>, order: seq<Job>, c: Cluster) returns (d: Cluster)
    requires Sensible(s) && Closed(s, all) && IsCrawl(s, order) && c in all && IsOver(s, order, c)
    ensures d in all && IsOver(s, order, d) && Done(d)
  {
    var good := iset b | b in all && IsOver(s, order, b);
    forall b, w: nat | b in good && Active(b, w) ensures Step(s, b, w) in good && IsProgress(s, b, Step(s, b, w)) {
      StepStaysOver(s, order, b, w);
      StepMakesProgress(s, b, w);
    }
    d := RunsOut(s, good, c);
  }

  lemma StageIsOver(s: Setup, order: seq<Job>, c: Cluster)
    requires Sensible(s) && CanOccur(s, c) && IsStage(s, order, c)
    ensures IsOver(s, order, c)
  {
    var n: nat :| n > 0 && Reachable(s, n, c);
    EveryRunStaysOrdered(s, n, c);
    forall u | u in c.claimed ensures u in c.fetched {
      var k :| 0 <= k < |order| && order[k].url == u;
      assert c.pages[k].url in c.fetched;
    }
  }

  /** Any crawl can be what a run of enough workers comes to. */
  lemma EveryCrawlCanHappen(s: Setup, order: seq<Job>) returns (n: nat, c: Cluster)
    requires Sensible(s) && IsCrawl(s, order)
    ensures n > 0 && Reachable(s, n, c) && Done(c) && OrderOf(c.pages) == order
    ensures forall u :: u in c.claimed <==> Claims(s, order, u)
  {
    var all := OccurrencesAreOpen(s);
    c := PagesInOrder(s, all, order, |order|);
    assert order[..|order|] == order;
    StageIsOver(s, order, c);
    c := CrawlEnds(s, all, order, c);
    n :| n > 0 && Reachable(s, n, c);
    EveryRunIsACrawl(s, n, c);
  }

  // ---------------------------------------------------------------------- when every run is complete

  lemma RunIsCompleteIfItsCrawlCovers(s: Setup, n: nat, c: Cluster)
    requires Sensible(s) && n > 0 && Reachable(s, n, c) && Done(c)
    ensures Complete(s, c) <==> Covers(s, OrderOf(c.pages))
  {
    EveryRunIsACrawl(s, n, c);
  }

  ghost predicate EveryRunIsComplete(s: Setup) {
    forall n: nat, c | n > 0 && Reachable(s, n, c) && Done(c) :: Complete(s, c)
  }

  ghost predicate EveryCrawlCovers(s: Setup) {
    forall order | IsCrawl(s, order) :: Covers(s, order)
  }

  /** If every crawl of the web from these seeds covers what lies within the depth, so does every run. */
  lemma CompleteIfEveryCrawlCovers(s: Setup)
    requires Sensible(s) && EveryCrawlCovers(s)
    ensures EveryRunIsComplete(s)
  {
    forall n: nat, c | n > 0 && Reachable(s, n, c) && Done(c) ensures Complete(s, c) {
      EveryRunIsACrawl(s, n, c);
      RunIsCompleteIfItsCrawlCovers(s, n, c);
    }
  }

  /** And only then: any number of workers are complete on a web exactly if all its crawls cover it. */
  lemma EveryRunIsCompleteIff(s: Setup)
    requires Sensible(s)
    ensures EveryRunIsComplete(s) <==> EveryCrawlCovers(s)
  {
    if EveryCrawlCovers(s) { CompleteIfEveryCrawlCovers(s); }
    if EveryRunIsComplete(s) {
      forall order | IsCrawl(s, order) ensures Covers(s, order) {
        var n, c := EveryCrawlCanHappen(s, order);
        assert Complete(s, c);
      }
    }
  }

  /** No page that is reached early can also be reached by a way as long as the maximum depth, and has links. */
  ghost predicate NoDetours(s: Setup) {
    forall u | s.maxDepth > 0 && Within(s.web, s.seeds, u, s.maxDepth - 1) && Reaches(s.web, s.seeds, u, s.maxDepth) ::
      Outlinks(s.web, u) == []
  }

  /** On such a web nothing can be missed. */
  lemma NoDetoursMeansComplete(s: Setup, n: nat, c: Cluster)
    requires Sensible(s) && n > 0 && NoDetours(s) && Reachable(s, n, c) && Done(c)
    ensures Complete(s, c)
  {
    EveryReachableClusterIsGood(s, n, c);
    CompleteIffNothingCutShort(s, c);
    forall page | page in c.pages ensures !CutShort(s, c, page) { assert PageIsReal(s, page); }
  }
}
