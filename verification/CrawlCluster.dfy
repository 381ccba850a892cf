/**
 Any number of crawl workers on one frontier and one deduplicator, interleaved at every request they make
 (src/beacon_scale_infra/crawl/worker.py, src/beacon_scale_infra/crawl/dedup.py). No worker crashes and none
 has a page cap.
 */
module CrawlCluster {
  import opened Wrappers
  import opened Collections
  import opened CrawlGraph

  datatype Job = Job(url: Url, depth: nat)

  datatype Page = Page(url: Url, depth: nat, links: seq<Url>)

  /** Where a worker stands in `run`. */
  datatype Phase =
    | Seeding(left: seq<Url>)
    | Polling(idle: nat)
    | Working(held: seq<Job>)                                      // a batch, its first job not looked at yet
    | Fetching(job: Job, held: seq<Job>)                           // claimed
    | Publishing(parent: Job, left: seq<Url>, held: seq<Job>)      // the page is written, its links are going out
    | Stopped

  datatype Setup = Setup(web: Web, seeds: seq<Url>, maxDepth: nat, batchSize: nat, idlePolls: nat)

  predicate Sensible(s: Setup) {
    s.batchSize > 0 && s.idlePolls > 0
  }

  datatype Cluster = Cluster(
    queue: seq<Job>,
    claimed: set<Url>,
    workers: seq<Phase>,
    fetched: seq<Url>,
    pages: seq<Page>)

  function Start(s: Setup, n: nat): Cluster {
    Cluster([], {}, seq(n, _ => Seeding(s.seeds)), [], [])
  }

  function Next(held: seq<Job>): Phase {
    if held == [] then Polling(0) else Working(held)
  }

  function Min(a: nat, b: nat): nat { if a < b then a else b }

  /** The next request of worker `w`. */
  function Step(s: Setup, c: Cluster, w: nat): Cluster
    requires w < |c.workers| && c.workers[w] != Stopped
  {
    match c.workers[w]
    case Seeding(left) =>
      if left == [] then c.(workers := c.workers[w := Polling(0)])
      else c.(queue := c.queue + [Job(left[0], 0)], workers := c.workers[w := Seeding(left[1..])])
    case Polling(idle) =>
      if c.queue == [] then
        c.(workers := c.workers[w := if idle + 1 >= s.idlePolls then Stopped else Polling(idle + 1)])
      else
        var n := Min(s.batchSize, |c.queue|);
        c.(queue := c.queue[n..], workers := c.workers[w := Next(c.queue[..n])])
    case Working(held) =>
      if held == [] then c.(workers := c.workers[w := Polling(0)])
      else if held[0].url in c.claimed then c.(workers := c.workers[w := Next(held[1..])])
      else c.(claimed := c.claimed + {held[0].url}, workers := c.workers[w := Fetching(held[0], held[1..])])
    case Fetching(job, held) =>
      var visit := Visit(s.web, job.url);
      if visit.Disallowed? then c.(workers := c.workers[w := Next(held)])
      else
        var c' := c.(fetched := c.fetched + [job.url]);
        if visit.Unfetchable? then c'.(workers := c.workers[w := Next(held)])
        else c'.(pages := c.pages + [Page(job.url, job.depth, visit.outlinks)],
                 workers := c.workers[w := if job.depth < s.maxDepth then Publishing(job, visit.outlinks, held)
                                           else Next(held)])
    case Publishing(parent, left, held) =>
      if left == [] then c.(workers := c.workers[w := Next(held)])
      else c.(queue := c.queue + [Job(left[0], parent.depth + 1)],
              workers := c.workers[w := Publishing(parent, left[1..], held)])
    case Stopped => c
  }

  // -------------------------------------------------------------------- what every step keeps

  /** Jobs a worker has taken and not looked at, and jobs it is about to publish. */
  function JobsOf(p: Phase): seq<Job> {
    match p
    case Seeding(left) => JobsFor(left, 0)
    case Working(held) => held
    case Fetching(_, held) => held
    case Publishing(parent, left, held) => JobsFor(left, parent.depth + 1) + held
    case _ => []
  }

  function JobsFor(urls: seq<Url>, depth: nat): seq<Job> {
    seq(|urls|, i requires 0 <= i < |urls| => Job(urls[i], depth))
  }

  ghost predicate JobIsReal(s: Setup, j: Job) {
    j.depth <= s.maxDepth && Reaches(s.web, s.seeds, j.url, j.depth)
  }

  ghost predicate PhaseIsSound(s: Setup, p: Phase) {
    && (forall j | j in JobsOf(p) :: JobIsReal(s, j))
    && (p.Fetching? ==> JobIsReal(s, p.job))
    && (p.Polling? ==> p.idle < s.idlePolls)
  }

  ghost predicate PageIsReal(s: Setup, page: Page) {
    && page.depth <= s.maxDepth && Reaches(s.web, s.seeds, page.url, page.depth)
    && Visit(s.web, page.url) == Fetched(page.links)
  }

  /** Every depth that is stored anywhere is the length of a real link path, and at most the maximum. */
  ghost predicate Sound(s: Setup, c: Cluster) {
    && (forall j | j in c.queue :: JobIsReal(s, j))
    && (forall w | 0 <= w < |c.workers| :: PhaseIsSound(s, c.workers[w]))
    && (forall page | page in c.pages :: PageIsReal(s, page))
    && (forall u | u in c.claimed :: u in Universe(s.web, s.seeds))
  }

  /** A URL is fetched at most once, and only by the worker that claimed it. */
  ghost predicate ClaimsAreExclusive(c: Cluster) {
    && (forall i, k | 0 <= i < k < |c.fetched| :: c.fetched[i] != c.fetched[k])
    && (forall u | u in c.fetched :: u in c.claimed)
    && (forall w | 0 <= w < |c.workers| && c.workers[w].Fetching? ::
          c.workers[w].job.url in c.claimed && c.workers[w].job.url !in c.fetched)
    && (forall v, w | 0 <= v < w < |c.workers| && c.workers[v].Fetching? && c.workers[w].Fetching? ::
          c.workers[v].job.url != c.workers[w].job.url)
  }

  /** One page per URL, written by whoever fetched it; a page exists unless the visit came to nothing. */
  ghost predicate PagesAreExclusive(s: Setup, c: Cluster) {
    && (forall i, k | 0 <= i < k < |c.pages| :: c.pages[i].url != c.pages[k].url)
    && (forall i | 0 <= i < |c.pages| :: c.pages[i].url in c.fetched)
    && (forall u | u in c.fetched && Visit(s.web, u).Fetched? :: exists i :: 0 <= i < |c.pages| && c.pages[i].url == u)
    && (forall u | u in c.claimed && Visit(s.web, u).Fetched? && u !in c.fetched ::
          exists w :: 0 <= w < |c.workers| && c.workers[w].Fetching? && c.workers[w].job.url == u)
  }

  /** `url` is claimed, or a job for it waits in the queue, in a worker's hands or to be published. */
  ghost predicate Accounted(c: Cluster, url: Url) {
    || url in c.claimed
    || (exists j :: j in c.queue && j.url == url)
    || (exists w, j :: 0 <= w < |c.workers| && j in JobsOf(c.workers[w]) && j.url == url)
  }

  ghost predicate NothingIsLost(s: Setup, c: Cluster) {
    && (forall u | u in s.seeds :: Accounted(c, u))
    && (forall page, v | page in c.pages && page.depth < s.maxDepth && v in page.links :: Accounted(c, v))
  }

  /** A worker stops only on an empty queue, so work that waits always has a worker left to take it. */
  ghost predicate SomebodyIsLeft(c: Cluster) {
    c.queue != [] ==> exists w :: 0 <= w < |c.workers| && c.workers[w] != Stopped
  }

  ghost predicate Inv(s: Setup, c: Cluster) {
    Sound(s, c) && ClaimsAreExclusive(c) && PagesAreExclusive(s, c) && NothingIsLost(s, c) && SomebodyIsLeft(c)
  }

  /** A step brings no job into the world, except for the links of the page it has fetched. */
  ghost predicate Derived(s: Setup, c: Cluster, p: Phase, j: Job) {
    || j in c.queue || j in JobsOf(p)
    || (p.Fetching? && p.job.depth < s.maxDepth && j.depth == p.job.depth + 1 && j.url in Outlinks(s.web, p.job.url))
  }

  lemma PublishingOneSplits(left: seq<Url>, depth: nat)
    requires left != []
    ensures Job(left[0], depth) in JobsFor(left, depth)
    ensures forall j | j in JobsFor(left[1..], depth) :: j in JobsFor(left, depth)
    ensures forall j | j in JobsFor(left, depth) :: j == Job(left[0], depth) || j in JobsFor(left[1..], depth)
  {
    assert JobsFor(left, depth) == [Job(left[0], depth)] + JobsFor(left[1..], depth);
  }

  lemma JobsComeFromJobs(s: Setup, c: Cluster, w: nat, j: Job)
    requires Sensible(s) && w < |c.workers| && c.workers[w] != Stopped
    requires var c' := Step(s, c, w); j in c'.queue || j in JobsOf(c'.workers[w])
    ensures Derived(s, c, c.workers[w], j)
  {
    match c.workers[w]
    case Seeding(left) =>
      if left != [] { PublishingOneSplits(left, 0); }
    case Polling(_) =>
    case Working(held) =>
    case Fetching(job, held) =>
    case Publishing(parent, left, held) =>
      if left != [] { PublishingOneSplits(left, parent.depth + 1); }
  }

  lemma DerivedIsReal(s: Setup, c: Cluster, p: Phase, j: Job)
    requires Sound(s, c) && PhaseIsSound(s, p) && Derived(s, c, p, j)
    ensures JobIsReal(s, j)
  {
    if j !in c.queue && j !in JobsOf(p) {
      LinkIsReached(s.web, s.seeds, p.job.url, p.job.depth, j.url);
    }
  }

  lemma StepIsSound(s: Setup, c: Cluster, w: nat)
    requires Sensible(s) && Sound(s, c) && w < |c.workers| && c.workers[w] != Stopped
    ensures Sound(s, Step(s, c, w))
  {
    var c', p := Step(s, c, w), c.workers[w];
    assert PhaseIsSound(s, p);
    forall j | j in c'.queue || j in JobsOf(c'.workers[w]) ensures JobIsReal(s, j) {
      JobsComeFromJobs(s, c, w, j);
      DerivedIsReal(s, c, p, j);
    }
    StepSoundPhase(s, c, w);
    StepSoundRecords(s, c, w);
    forall v | 0 <= v < |c'.workers| ensures PhaseIsSound(s, c'.workers[v]) {
      if v != w { assert c'.workers[v] == c.workers[v]; }
    }
  }

  lemma StepSoundPhase(s: Setup, c: Cluster, w: nat)
    requires Sensible(s) && Sound(s, c) && w < |c.workers| && c.workers[w] != Stopped
    ensures var p := Step(s, c, w).workers[w];
            (p.Fetching? ==> JobIsReal(s, p.job)) && (p.Polling? ==> p.idle < s.idlePolls)
  {
    var p := c.workers[w];
    assert PhaseIsSound(s, p);
    if p.Working? && p.held != [] { assert p.held[0] in JobsOf(p); }
  }

  lemma StepSoundRecords(s: Setup, c: Cluster, w: nat)
    requires Sensible(s) && Sound(s, c) && w < |c.workers| && c.workers[w] != Stopped
    ensures var c' := Step(s, c, w);
            && (forall page | page in c'.pages :: PageIsReal(s, page))
            && (forall u | u in c'.claimed :: u in Universe(s.web, s.seeds))
  {
    var p := c.workers[w];
    assert PhaseIsSound(s, p);
    if p.Working? && p.held != [] {
      assert p.held[0] in JobsOf(p);
      ReachedIsInUniverse(s.web, s.seeds, p.held[0].url, p.held[0].depth);
    }
  }

  lemma StepKeepsClaims(s: Setup, c: Cluster, w: nat)
    requires ClaimsAreExclusive(c) && w < |c.workers| && c.workers[w] != Stopped
    ensures ClaimsAreExclusive(Step(s, c, w))
  {
    var c' := Step(s, c, w);
    assert forall v | 0 <= v < |c.workers| && v != w :: c'.workers[v] == c.workers[v];
  }

  lemma FetchedHasPage(s: Setup, c: Cluster, w: nat, u: Url)
    requires PagesAreExclusive(s, c) && w < |c.workers| && c.workers[w] != Stopped
    requires u in Step(s, c, w).fetched && Visit(s.web, u).Fetched?
    ensures var pages := Step(s, c, w).pages; exists i :: 0 <= i < |pages| && pages[i].url == u
  {
    var c' := Step(s, c, w);
    if u in c.fetched {
      var i :| 0 <= i < |c.pages| && c.pages[i].url == u;
      assert c'.pages[i].url == u;
    } else {
      assert c'.pages[|c.pages|].url == u;
    }
  }

  lemma ClaimedIsFetching(s: Setup, c: Cluster, w: nat, u: Url)
    requires PagesAreExclusive(s, c) && w < |c.workers| && c.workers[w] != Stopped
    requires var c' := Step(s, c, w); u in c'.claimed && Visit(s.web, u).Fetched? && u !in c'.fetched
    ensures var workers := Step(s, c, w).workers;
            exists v :: 0 <= v < |workers| && workers[v].Fetching? && workers[v].job.url == u
  {
    var c' := Step(s, c, w);
    if u in c.claimed {
      var v :| 0 <= v < |c.workers| && c.workers[v].Fetching? && c.workers[v].job.url == u;
      assert v != w && c'.workers[v] == c.workers[v];
    } else {
      assert c'.workers[w].job.url == u;
    }
  }

  lemma StepKeepsPages(s: Setup, c: Cluster, w: nat)
    requires ClaimsAreExclusive(c) && PagesAreExclusive(s, c) && w < |c.workers| && c.workers[w] != Stopped
    ensures PagesAreExclusive(s, Step(s, c, w))
  {
    var c' := Step(s, c, w);
    forall u | u in c'.fetched && Visit(s.web, u).Fetched?
      ensures exists i :: 0 <= i < |c'.pages| && c'.pages[i].url == u
    {
      FetchedHasPage(s, c, w, u);
    }
    forall u | u in c'.claimed && Visit(s.web, u).Fetched? && u !in c'.fetched
      ensures exists v :: 0 <= v < |c'.workers| && c'.workers[v].Fetching? && c'.workers[v].job.url == u
    {
      ClaimedIsFetching(s, c, w, u);
    }
  }

  lemma StepAccounts(s: Setup, c: Cluster, w: nat, url: Url)
    requires Sensible(s) && w < |c.workers| && c.workers[w] != Stopped
    requires Accounted(c, url)
    ensures Accounted(Step(s, c, w), url)
  {
    var c' := Step(s, c, w);
    if url in c'.claimed {
    } else if j :| j in c.queue && j.url == url {
      if j !in c'.queue {
        assert j in JobsOf(c'.workers[w]);
      }
    } else {
      var v, j :| 0 <= v < |c.workers| && j in JobsOf(c.workers[v]) && j.url == url;
      if v != w {
        assert c'.workers[v] == c.workers[v];
      } else {
        OwnJobIsAccounted(s, c, w, j);
      }
    }
  }

  lemma OwnJobIsAccounted(s: Setup, c: Cluster, w: nat, j: Job)
    requires Sensible(s) && w < |c.workers| && j in JobsOf(c.workers[w])
    requires c.workers[w] != Stopped
    ensures Accounted(Step(s, c, w), j.url)
  {
    var c' := Step(s, c, w);
    OwnJobIsKept(s, c, w, j);
    if j in JobsOf(c'.workers[w]) { assert 0 <= w < |c'.workers|; }
  }

  /** What a worker takes up is claimed, published, or still in its hands. */
  lemma OwnJobIsKept(s: Setup, c: Cluster, w: nat, j: Job)
    requires w < |c.workers| && j in JobsOf(c.workers[w]) && c.workers[w] != Stopped
    ensures var c' := Step(s, c, w); j.url in c'.claimed || j in c'.queue || j in JobsOf(c'.workers[w])
  {
    var p := c.workers[w];
    if p.Publishing? {
      OwnLinkIsKept(s, c, w, j);
    } else if p.Seeding? {
      if p.left != [] { PublishingOneSplits(p.left, 0); }
    } else if p.Working? {
      assert p.held == [p.held[0]] + p.held[1..];
    }
  }

  lemma OwnLinkIsKept(s: Setup, c: Cluster, w: nat, j: Job)
    requires w < |c.workers| && j in JobsOf(c.workers[w]) && c.workers[w].Publishing?
    ensures var c' := Step(s, c, w); j in c'.queue || j in JobsOf(c'.workers[w])
  {
    var p := c.workers[w];
    if p.left != [] { PublishingOneSplits(p.left, p.parent.depth + 1); }
  }

  lemma StepLosesNothing(s: Setup, c: Cluster, w: nat)
    requires Sensible(s) && NothingIsLost(s, c) && w < |c.workers| && c.workers[w] != Stopped
    ensures NothingIsLost(s, Step(s, c, w))
  {
    var c' := Step(s, c, w);
    forall u | u in s.seeds ensures Accounted(c', u) { StepAccounts(s, c, w, u); }
    forall page, v | page in c'.pages && page.depth < s.maxDepth && v in page.links ensures Accounted(c', v) {
      if page in c.pages {
        StepAccounts(s, c, w, v);
      } else {
        var job := c.workers[w].job;
        var i :| 0 <= i < |page.links| && page.links[i] == v;
        assert c'.workers[w] == Publishing(job, page.links, c.workers[w].held);
        assert JobsOf(c'.workers[w])[i] == Job(v, job.depth + 1);
      }
    }
  }

  /** Every step of every worker keeps all of it. */
  lemma StepKeepsInv(s: Setup, c: Cluster, w: nat)
    requires Sensible(s) && Inv(s, c) && w < |c.workers| && c.workers[w] != Stopped
    ensures Inv(s, Step(s, c, w))
  {
    StepIsSound(s, c, w);
    StepKeepsClaims(s, c, w);
    StepKeepsPages(s, c, w);
    StepLosesNothing(s, c, w);
    StepLeavesSomebody(s, c, w);
  }

  lemma StepLeavesSomebody(s: Setup, c: Cluster, w: nat)
    requires Sensible(s) && SomebodyIsLeft(c) && w < |c.workers| && c.workers[w] != Stopped
    ensures SomebodyIsLeft(Step(s, c, w))
  {
    var c' := Step(s, c, w);
    if c'.queue != [] {
      assert c'.workers[w] != Stopped;
    }
  }

  lemma StartIsGood(s: Setup, n: nat)
    requires Sensible(s) && n > 0
    ensures Inv(s, Start(s, n))
  {
    var c := Start(s, n);
    forall w | 0 <= w < n ensures PhaseIsSound(s, c.workers[w]) {
      forall j | j in JobsFor(s.seeds, 0) ensures JobIsReal(s, j) { SeedsAreReached(s.web, s.seeds, j.url); }
    }
    forall u | u in s.seeds ensures Accounted(c, u) {
      var i :| 0 <= i < |s.seeds| && s.seeds[i] == u;
      assert JobsOf(c.workers[0])[i] == Job(u, 0);
    }
  }

  // --------------------------------------------------------------------------- every run comes to an end

  predicate Done(c: Cluster) {
    forall w | 0 <= w < |c.workers| :: c.workers[w] == Stopped
  }

  predicate Active(c: Cluster, w: nat) {
    w < |c.workers| && c.workers[w] != Stopped
  }

  /** What a phase still has to do before its worker asks the queue for more, and what that may put on the queue. */
  function Weight(s: Setup, p: Phase): nat {
    match p
    case Seeding(left) => 4 * |left| + 1
    case Polling(_) => 0
    case Working(held) => |held| + 1
    case Fetching(job, held) => 4 * |Outlinks(s.web, job.url)| + |held| + 3
    case Publishing(_, left, held) => 4 * |left| + |held| + 2
    case Stopped => 0
  }

  function Patience(s: Setup, p: Phase): nat {
    if p.Polling? && p.idle < s.idlePolls then s.idlePolls - p.idle else 0
  }

  ghost function Unclaimed(s: Setup, c: Cluster): nat {
    |Universe(s.web, s.seeds) - c.claimed|
  }

  function Outstanding(s: Setup, c: Cluster): nat {
    3 * |c.queue| + Total(p => Weight(s, p), c.workers)
  }

  function PatienceLeft(s: Setup, c: Cluster): nat {
    Total(p => Patience(s, p), c.workers)
  }

  /** A claim uses up a URL; any other request uses up work, or the worker's patience. */
  ghost predicate IsProgress(s: Setup, c: Cluster, c': Cluster) {
    || Unclaimed(s, c') < Unclaimed(s, c)
    || (c'.claimed == c.claimed && Outstanding(s, c') < Outstanding(s, c))
    || (c'.claimed == c.claimed && Outstanding(s, c') == Outstanding(s, c) && PatienceLeft(s, c') < PatienceLeft(s, c))
  }

  lemma ClaimIsProgress(s: Setup, c: Cluster, w: nat)
    requires Sound(s, c) && Active(c, w) && c.workers[w].Working? && c.workers[w].held != []
    requires c.workers[w].held[0].url !in c.claimed
    ensures Unclaimed(s, Step(s, c, w)) < Unclaimed(s, c)
  {
    var job, all := c.workers[w].held[0], Universe(s.web, s.seeds);
    assert PhaseIsSound(s, c.workers[w]) && job in JobsOf(c.workers[w]);
    ReachedIsInUniverse(s.web, s.seeds, job.url, job.depth);
    assert all - Step(s, c, w).claimed == (all - c.claimed) - {job.url};
  }

  ghost predicate UsesUpWork(s: Setup, c: Cluster, w: nat, c': Cluster)
    requires w < |c.workers| == |c'.workers|
  {
    var p, p' := c.workers[w], c'.workers[w];
    && c'.claimed == c.claimed && c'.workers == c.workers[w := p']
    && (if p.Polling? && c.queue == [] then c'.queue == [] && Weight(s, p') == 0 && Patience(s, p') < Patience(s, p)
        else 3 * |c'.queue| + Weight(s, p') < 3 * |c.queue| + Weight(s, p))
  }

  lemma StepUsesUpWork(s: Setup, c: Cluster, w: nat)
    requires Sensible(s) && Active(c, w) && PhaseIsSound(s, c.workers[w])
    requires var p := c.workers[w]; !(p.Working? && p.held != [] && p.held[0].url !in c.claimed)
    ensures UsesUpWork(s, c, w, Step(s, c, w))
  {
    match c.workers[w]
    case Seeding(_) =>
    case Polling(_) =>
    case Working(_) =>
    case Fetching(_, _) =>
    case Publishing(_, _, _) =>
  }

  lemma WorkIsProgress(s: Setup, c: Cluster, w: nat, c': Cluster)
    requires w < |c.workers| == |c'.workers| && UsesUpWork(s, c, w, c')
    ensures IsProgress(s, c, c')
  {
    TotalAfterUpdate(p => Weight(s, p), c.workers, w, c'.workers[w]);
    TotalAfterUpdate(p => Patience(s, p), c.workers, w, c'.workers[w]);
  }

  lemma StepMakesProgress(s: Setup, c: Cluster, w: nat)
    requires Sensible(s) && Sound(s, c) && Active(c, w)
    ensures IsProgress(s, c, Step(s, c, w))
  {
    var p := c.workers[w];
    if p.Working? && p.held != [] && p.held[0].url !in c.claimed {
      ClaimIsProgress(s, c, w);
    } else {
      assert PhaseIsSound(s, p);
      StepUsesUpWork(s, c, w);
      WorkIsProgress(s, c, w, Step(s, c, w));
    }
  }

  /** A scheduler that may use anything it knows, and always picks a worker that has not stopped. */
  ghost predicate Schedules(pick: (Cluster, nat) -> nat) {
    forall c: Cluster, i: nat | !Done(c) :: Active(c, pick(c, i))
  }

  /** `k` requests later, where `i` requests came before. */
  ghost function Later(s: Setup, c: Cluster, pick: (Cluster, nat) -> nat, i: nat, k: nat): Cluster
    requires Schedules(pick)
    decreases k
  {
    if k == 0 || Done(c) then c else Later(s, Step(s, c, pick(c, i)), pick, i + 1, k - 1)
  }

  /** A set of clusters that no step leaves, and in which every step is progress. */
  ghost predicate Progresses(s: Setup, good: iset<Cluster>) {
    forall c, w: nat {:trigger Step(s, c, w)} | c in good && Active(c, w) ::
      Step(s, c, w) in good && IsProgress(s, c, Step(s, c, w))
  }

  lemma {:induction false} ProgressEnds(s: Setup, good: iset<Cluster>, c: Cluster, pick: (Cluster, nat) -> nat, i: nat)
      returns (k: nat)
    requires Progresses(s, good) && c in good && Schedules(pick)
    ensures Done(Later(s, c, pick, i, k)) && Later(s, c, pick, i, k) in good
    decreases Unclaimed(s, c), Outstanding(s, c), PatienceLeft(s, c)
  {
    if Done(c) { return 0; }
    var d := OneMore(s, good, c, pick, i);
    k := ProgressEnds(s, good, d, pick, i + 1);
    LaterUnrolls(s, c, pick, i, k);
    k := k + 1;
  }

  lemma OneMore(s: Setup, good: iset<Cluster>, c: Cluster, pick: (Cluster, nat) -> nat, i: nat) returns (d: Cluster)
    requires Progresses(s, good) && c in good && Schedules(pick) && !Done(c)
    ensures Active(c, pick(c, i)) && d == Step(s, c, pick(c, i)) && d in good && IsProgress(s, c, d)
  {
    assert Active(c, pick(c, i));
    d := Step(s, c, pick(c, i));
  }

  lemma LaterUnrolls(s: Setup, c: Cluster, pick: (Cluster, nat) -> nat, i: nat, k: nat)
    requires Schedules(pick) && !Done(c)
    ensures Active(c, pick(c, i)) && Later(s, c, pick, i, k + 1) == Later(s, Step(s, c, pick(c, i)), pick, i + 1, k)
  {
  }

  /** Whatever the scheduler does, the run ends, and what it ends with is as every step keeps it. */
  lemma EveryRunEnds(s: Setup, c: Cluster, pick: (Cluster, nat) -> nat, i: nat) returns (k: nat)
    requires Sensible(s) && Inv(s, c) && Schedules(pick)
    ensures Done(Later(s, c, pick, i, k)) && Inv(s, Later(s, c, pick, i, k))
  {
    var good := iset c | Inv(s, c);
    forall c, w: nat | c in good && Active(c, w) ensures Step(s, c, w) in good && IsProgress(s, c, Step(s, c, w)) {
      StepMakesProgress(s, c, w);
      StepKeepsInv(s, c, w);
    }
    k := ProgressEnds(s, good, c, pick, i);
  }

  // ------------------------------------------------------------------------------- what a run ends with

  /** Some schedule of active workers leads from `c` to `d`. */
  ghost predicate Leads(s: Setup, c: Cluster, d: Cluster, steps: nat)
    decreases steps
  {
    if steps == 0 then c == d
    else exists b, w: nat :: Leads(s, c, b, steps - 1) && Active(b, w) && d == Step(s, b, w)
  }

  ghost predicate Reachable(s: Setup, n: nat, c: Cluster) {
    exists steps: nat :: Leads(s, Start(s, n), c, steps)
  }

  /** A set of clusters that no request leads out of. */
  ghost predicate Closed(s: Setup, all: iset<Cluster>) {
    forall c, w: nat | c in all && Active(c, w) :: Step(s, c, w) in all
  }

  lemma {:induction false} LeadsNowhereElse(s: Setup, all: iset<Cluster>, c: Cluster, d: Cluster, steps: nat)
    requires Closed(s, all) && c in all && Leads(s, c, d, steps)
    ensures d in all
    decreases steps
  {
    if steps > 0 {
      var b, w: nat :| Leads(s, c, b, steps - 1) && Active(b, w) && d == Step(s, b, w);
      LeadsNowhereElse(s, all, c, b, steps - 1);
    }
  }

  lemma LeadsKeepsInv(s: Setup, c: Cluster, d: Cluster, steps: nat)
    requires Sensible(s) && Inv(s, c) && Leads(s, c, d, steps)
    ensures Inv(s, d)
  {
    var good := iset c | Inv(s, c);
    forall c, w: nat | c in good && Active(c, w) ensures Step(s, c, w) in good { StepKeepsInv(s, c, w); }
    LeadsNowhereElse(s, good, c, d, steps);
  }

  /** In every reachable state: one fetch per URL, real depths, and no URL that was published is lost. */
  lemma EveryReachableClusterIsGood(s: Setup, n: nat, c: Cluster)
    requires Sensible(s) && n > 0 && Reachable(s, n, c)
    ensures Inv(s, c)
  {
    StartIsGood(s, n);
    var steps: nat :| Leads(s, Start(s, n), c, steps);
    LeadsKeepsInv(s, Start(s, n), c, steps);
  }

  /** When all have stopped, nothing waits: the seeds and every link that was to be followed are claimed. */
  lemma AtTheEndLinksAreClaimed(s: Setup, c: Cluster)
    requires Inv(s, c) && Done(c)
    ensures c.queue == []
    ensures forall u | u in s.seeds :: u in c.claimed
    ensures forall page, v | page in c.pages && page.depth < s.maxDepth && v in page.links :: v in c.claimed
    ensures forall u | u in c.claimed && Visit(s.web, u).Fetched? ::
              exists i :: 0 <= i < |c.pages| && c.pages[i].url == u
    ensures forall u | u in c.claimed :: u in c.fetched || !Visit(s.web, u).Fetched?
  {
    forall u | Accounted(c, u) ensures u in c.claimed {
      forall w | 0 <= w < |c.workers| ensures JobsOf(c.workers[w]) == [] { }
    }
  }

  /** The clusters of a run, request by request; `ws` says which worker's request each one was. */
  ghost predicate IsRun(s: Setup, n: nat, cs: seq<Cluster>, ws: seq<nat>) {
    && |cs| == |ws| + 1 && cs[0] == Start(s, n)
    && forall k | 0 <= k < |ws| :: Active(cs[k], ws[k]) && cs[k + 1] == Step(s, cs[k], ws[k])
  }

  /** How often in a row worker `w` has polled in vain, when `k` requests have been made. */
  ghost function IdlePolls(s: Setup, n: nat, cs: seq<Cluster>, ws: seq<nat>, w: nat, k: nat): nat
    requires IsRun(s, n, cs, ws) && k <= |ws|
  {
    if k == 0 then 0
    else if ws[k - 1] != w then IdlePolls(s, n, cs, ws, w, k - 1)
    else if cs[k - 1].workers[w].Polling? && cs[k - 1].queue == [] then IdlePolls(s, n, cs, ws, w, k - 1) + 1
    else 0
  }

  /** A worker has stopped exactly if it has polled an empty queue so many times in a row. */
  lemma {:induction false} StopsWhenIdleLongEnough(s: Setup, n: nat, cs: seq<Cluster>, ws: seq<nat>, w: nat, k: nat)
    requires Sensible(s) && IsRun(s, n, cs, ws) && k <= |ws| && w < n
    ensures |cs[k].workers| == n
    ensures cs[k].workers[w] == Stopped <==> IdlePolls(s, n, cs, ws, w, k) == s.idlePolls
    ensures cs[k].workers[w].Polling? ==>
              cs[k].workers[w].idle == IdlePolls(s, n, cs, ws, w, k) < s.idlePolls
    ensures !cs[k].workers[w].Polling? && cs[k].workers[w] != Stopped ==> IdlePolls(s, n, cs, ws, w, k) == 0
  {
    if k > 0 {
      StopsWhenIdleLongEnough(s, n, cs, ws, w, k - 1);
      assert Active(cs[k - 1], ws[k - 1]) && cs[k] == Step(s, cs[k - 1], ws[k - 1]);
    }
  }

  /**
   A page written at the maximum depth although a shorter way leads to it, with a link nobody claimed.
   One worker alone never leaves one behind; several workers can.
   */
  ghost predicate CutShort(s: Setup, c: Cluster, page: Page) {
    && page in c.pages && page.depth == s.maxDepth
    && s.maxDepth > 0 && Within(s.web, s.seeds, page.url, s.maxDepth - 1)
    && exists v :: v in page.links && v !in c.claimed
  }

  ghost predicate Complete(s: Setup, c: Cluster) {
    forall u | Within(s.web, s.seeds, u, s.maxDepth) :: u in c.claimed
  }

  lemma {:induction false} PathIsClaimed(s: Setup, c: Cluster, p: seq<Url>, i: nat)
    requires Inv(s, c) && Done(c)
    requires Path(s.web, s.seeds, p) && i < |p| && i <= s.maxDepth
    ensures p[i] in c.claimed || exists page :: CutShort(s, c, page)
  {
    if i == 0 {
      AtTheEndLinksAreClaimed(s, c);
    } else {
      PathIsClaimed(s, c, p, i - 1);
      if p[i - 1] in c.claimed {
        assert p[i] in Outlinks(s.web, p[i - 1]);
        assert Path(s.web, s.seeds, p[..i]) && |p[..i]| == i && p[..i][i - 1] == p[i - 1];
        assert Reaches(s.web, s.seeds, p[i - 1], i - 1);
        LinkIsClaimedUnlessCutShort(s, c, p[i - 1], i - 1, p[i]);
      }
    }
  }

  lemma LinkIsClaimedUnlessCutShort(s: Setup, c: Cluster, u: Url, d: nat, v: Url)
    requires Inv(s, c) && Done(c)
    requires u in c.claimed && Reaches(s.web, s.seeds, u, d) && d < s.maxDepth && v in Outlinks(s.web, u)
    ensures v in c.claimed || exists page :: CutShort(s, c, page)
  {
    AtTheEndLinksAreClaimed(s, c);
    var k :| 0 <= k < |c.pages| && c.pages[k].url == u;
    assert PageIsReal(s, c.pages[k]);
    assert v !in c.claimed ==> CutShort(s, c, c.pages[k]);
  }

  /** The crawl claims every URL within the maximum depth exactly if no page was cut short. */
  lemma CompleteIffNothingCutShort(s: Setup, c: Cluster)
    requires Inv(s, c) && Done(c)
    ensures Complete(s, c) <==> !exists page :: CutShort(s, c, page)
  {
    if !exists page :: CutShort(s, c, page) {
      forall u, k: nat | k <= s.maxDepth && Reaches(s.web, s.seeds, u, k) ensures u in c.claimed {
        var p :| Path(s.web, s.seeds, p) && |p| == k + 1 && p[k] == u;
        PathIsClaimed(s, c, p, k);
      }
    } else {
      var page :| CutShort(s, c, page);
      var v :| v in page.links && v !in c.claimed;
      var k: nat :| k <= s.maxDepth - 1 && Reaches(s.web, s.seeds, page.url, k);
      assert PageIsReal(s, page);
      LinkIsReached(s.web, s.seeds, page.url, k, v);
      assert Within(s.web, s.seeds, v, s.maxDepth);
    }
  }

  /** The reachable clusters are such a set. */
  lemma ReachableIsClosed(s: Setup, n: nat)
    ensures Closed(s, iset c | Reachable(s, n, c)) && Reachable(s, n, Start(s, n))
  {
    assert Leads(s, Start(s, n), Start(s, n), 0);
    forall c, w: nat | Reachable(s, n, c) && Active(c, w) ensures Reachable(s, n, Step(s, c, w)) {
      var steps: nat :| Leads(s, Start(s, n), c, steps);
      assert Leads(s, Start(s, n), Step(s, c, w), steps + 1);
    }
  }

  // One or two requests of one worker, as needed for the run below.

  lemma Seeds(s: Setup, all: iset<Cluster>, c: Cluster, w: nat, u: Url) returns (d: Cluster)
    requires Closed(s, all) && c in all && w < |c.workers| && c.workers[w] == Seeding([u])
    ensures d in all
    ensures d.queue == c.queue + [Job(u, 0)] && d.claimed == c.claimed && d.workers == c.workers[w := Polling(0)]
  {
    var b := Step(s, c, w);
    assert b.workers[w] == Seeding([]);
    d := Step(s, b, w);
  }

  lemma Polls(s: Setup, all: iset<Cluster>, c: Cluster, w: nat, j: Job, rest: seq<Job>) returns (d: Cluster)
    requires Closed(s, all) && c in all && w < |c.workers| && c.workers[w].Polling?
    requires s.batchSize == 1 && c.queue == [j] + rest
    ensures d in all
    ensures d.queue == rest && d.claimed == c.claimed && d.workers == c.workers[w := Working([j])]
  {
    d := Step(s, c, w);
    assert c.queue[..1] == [j];
  }

  lemma Crawls(s: Setup, all: iset<Cluster>, c: Cluster, w: nat, j: Job) returns (d: Cluster)
    requires Closed(s, all) && c in all && w < |c.workers| && c.workers[w] == Working([j])
    requires j.url !in c.claimed && Visit(s.web, j.url).Fetched?
    ensures d in all
    ensures d.queue == c.queue && d.claimed == c.claimed + {j.url}
    ensures d.workers
            == c.workers[w := if j.depth < s.maxDepth then Publishing(j, Outlinks(s.web, j.url), []) else Polling(0)]
  {
    var b := Step(s, c, w);
    assert b.workers[w] == Fetching(j, []);
    d := Step(s, b, w);
  }

  lemma Publishes(s: Setup, all: iset<Cluster>, c: Cluster, w: nat, parent: Job, u: Url, rest: seq<Url>)
      returns (d: Cluster)
    requires Closed(s, all) && c in all && w < |c.workers| && c.workers[w] == Publishing(parent, [u] + rest, [])
    ensures d in all
    ensures d.queue == c.queue + [Job(u, parent.depth + 1)] && d.claimed == c.claimed
    ensures d.workers == c.workers[w := Publishing(parent, rest, [])]
  {
    d := Step(s, c, w);
    assert ([u] + rest)[1..] == rest;
  }

  /** The last link is out; a job turns out to be a duplicate; or there is nothing to take. */
  lemma Moves(s: Setup, all: iset<Cluster>, c: Cluster, w: nat) returns (d: Cluster)
    requires Closed(s, all) && c in all && w < |c.workers|
    requires match c.workers[w]
             case Publishing(_, left, held) => left == [] && held == []
             case Working(held) => |held| == 1 && held[0].url in c.claimed
             case Polling(idle) => c.queue == [] && idle + 1 == s.idlePolls
             case _ => false
    ensures d in all
    ensures d.queue == c.queue && d.claimed == c.claimed
    ensures d.workers == c.workers[w := if c.workers[w].Polling? then Stopped else Polling(0)]
  {
    d := Step(s, c, w);
  }

  /** `r` links to `x` and `a`, `a` links to `x`, and `x` links to `y`: `y` is two links away. */
  ghost predicate IsDiamond(s: Setup, r: Url, a: Url, x: Url, y: Url) {
    && r != a && r != x && r != y && a != x && a != y && x != y
    && s.seeds == [r] && s.maxDepth == 2 && s.batchSize == 1 && s.idlePolls == 1
    && Visit(s.web, r) == Fetched([x] + [a]) && Visit(s.web, a) == Fetched([x] + [])
    && Visit(s.web, x) == Fetched([y] + [])
  }

  /** Worker 0 crawls `r` and takes the job for `x`, and then is slow. */
  lemma SlowWorker(s: Setup, all: iset<Cluster>, r: Url, a: Url, x: Url, y: Url) returns (c: Cluster)
    requires IsDiamond(s, r, a, x, y) && Closed(s, all) && Start(s, 2) in all
    ensures c in all
    ensures c.queue == [Job(a, 1), Job(r, 0)] && c.claimed == {r} && c.workers == [Working([Job(x, 1)]), Polling(0)]
  {
    c := Seeds(s, all, Start(s, 2), 0, r);
    c := Polls(s, all, c, 0, Job(r, 0), []);
    c := Crawls(s, all, c, 0, Job(r, 0));
    c := Publishes(s, all, c, 0, Job(r, 0), x, [a]);
    c := Publishes(s, all, c, 0, Job(r, 0), a, []);
    c := Moves(s, all, c, 0);
    c := Seeds(s, all, c, 1, r);
    c := Polls(s, all, c, 0, Job(x, 1), [Job(a, 1), Job(r, 0)]);
  }

  /** Meanwhile worker 1 reaches `x` through `a`, at depth 2, where links are not followed any more. */
  lemma FastWorker(s: Setup, all: iset<Cluster>, r: Url, a: Url, x: Url, y: Url) returns (c: Cluster)
    requires IsDiamond(s, r, a, x, y) && Closed(s, all) && Start(s, 2) in all
    ensures c in all
    ensures c.queue == [] && c.claimed == {r, a, x} && c.workers == [Working([Job(x, 1)]), Polling(0)]
  {
    c := SlowWorker(s, all, r, a, x, y);
    c := Polls(s, all, c, 1, Job(a, 1), [Job(r, 0)]);
    c := Crawls(s, all, c, 1, Job(a, 1));
    c := Publishes(s, all, c, 1, Job(a, 1), x, []);
    c := Moves(s, all, c, 1);
    c := Polls(s, all, c, 1, Job(r, 0), [Job(x, 2)]);
    c := Moves(s, all, c, 1);
    c := Polls(s, all, c, 1, Job(x, 2), []);
    c := Crawls(s, all, c, 1, Job(x, 2));
  }

  /** So two workers can finish without ever claiming a URL that lies within the maximum depth. */
  lemma TwoWorkersCanMissAPage(s: Setup, r: Url, a: Url, x: Url, y: Url) returns (c: Cluster)
    requires IsDiamond(s, r, a, x, y)
    ensures Reachable(s, 2, c) && Done(c) && c.queue == []
    ensures Within(s.web, s.seeds, y, 2) && y !in c.claimed
  {
    var all := iset c | Reachable(s, 2, c);
    ReachableIsClosed(s, 2);
    c := FastWorker(s, all, r, a, x, y);
    c := Moves(s, all, c, 0);
    c := Moves(s, all, c, 0);
    c := Moves(s, all, c, 1);
    SeedsAreReached(s.web, s.seeds, r);
    LinkIsReached(s.web, s.seeds, r, 0, x);
    LinkIsReached(s.web, s.seeds, x, 1, y);
  }
}
