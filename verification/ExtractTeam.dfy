/**
 Several extract workers on one store, taking turns in any order until each has come to its end
 (src/beacon_scale_infra/extract/worker.py).
 */
module ExtractTeam {
  import opened Wrappers
  import opened Collections
  import opened CorpusLines
  import opened CorpusCatalog
  import opened ExtractWorker
  import opened CorpusHandover

  function Tag(worker: string, requests: seq<Request>): seq<Tagged> {
    seq(|requests|, i requires 0 <= i < |requests| => Tagged(worker, requests[i]))
  }

  lemma TaggingOneMore(log: seq<Tagged>, t: Tagged, w: string)
    ensures Untagged(log + [t]) == Untagged(log) + [t.request]
    ensures Of(log + [t], w) == Of(log, w) + if w == t.worker then [t.request] else []
  {
    assert (log + [t])[..|log|] == log;
  }

  lemma {:induction false} TaggingOnlyAdds(log: seq<Tagged>, worker: string, requests: seq<Request>, w: string)
    ensures Untagged(log + Tag(worker, requests)) == Untagged(log) + requests
    ensures Of(log + Tag(worker, requests), w) == Of(log, w) + if w == worker then requests else []
  {
    if requests == [] {
      assert log + Tag(worker, requests) == log;
    } else {
      var init, last := requests[..|requests| - 1], requests[|requests| - 1];
      TaggingOnlyAdds(log, worker, init, w);
      TaggingOneMore(log + Tag(worker, init), Tagged(worker, last), w);
      assert Tag(worker, requests) == Tag(worker, init) + [Tagged(worker, last)];
      Associative(log, Tag(worker, init), [Tagged(worker, last)]);
      LastSplit(requests);
      Associative(Untagged(log), init, [last]);
      Associative(Of(log, w), init, [last]);
    }
  }

  /** These workers share the store, and no two have the same name. */
  ghost predicate IsTeam(prefix: string, workers: seq<ExtractWorker>, store: ExtractStore) {
    && (forall i | 0 <= i < |workers| :: 
          workers[i].store == store && workers[i].config.prefix == prefix && workers[i].config.idlePolls > 0)
    && (forall i, k | 0 <= i < k < |workers| :: workers[i] != workers[k])
    && (forall i, k | 0 <= i < |workers| && 0 <= k < |workers| && i != k ::
          workers[i].config.workerId != workers[k].config.workerId)
  }

  /** The log holds what this worker has sent. */
  ghost predicate IsLogged(worker: ExtractWorker, log: seq<Tagged>)
    reads worker
  {
    worker.Valid() && Of(log, worker.config.workerId) == Sent(worker.config, worker.events)
  }

  ghost predicate AllLogged(workers: seq<ExtractWorker>, log: seq<Tagged>)
    reads set w | w in workers
  {
    (forall i | 0 <= i < |workers| :: IsLogged(workers[i], log)) && SendersAreKnown(workers, log)
  }

  /** Only these workers have sent anything. */
  ghost predicate SendersAreKnown(workers: seq<ExtractWorker>, log: seq<Tagged>) {
    forall k | 0 <= k < |log| :: exists i :: 0 <= i < |workers| && workers[i].config.workerId == log[k].worker
  }

  /** It has processed these pages in order: all of them, unless it has reached its cap. */
  ghost predicate HasTaken(worker: ExtractWorker, pages: seq<Extraction>)
    reads worker
  {
    AreTakenFrom(worker.events, pages, worker.ReachedMaxPages())
  }

  /** After these pages it has come to its end. */
  ghost predicate HasEndedWith(worker: ExtractWorker, pages: seq<Extraction>)
    reads worker
  {
    && HasEnded(worker)
    && AreTakenFrom(worker.events[..|worker.events| - 1], pages, worker.ReachedMaxPages())
  }

  ghost predicate HasEnded(worker: ExtractWorker)
    reads worker
  {
    worker.events != [] && worker.events[|worker.events| - 1].Stop?
  }

  lemma NoPolls(n: nat)
    ensures PagesUpTo([], n) == []
  {
  }

  /** A worker at its cap takes nothing, and any other goes on with the batch. */
  lemma TakesBatch(events: seq<Event>, pages: seq<Extraction>, was: bool, taken: seq<Event>, batch: seq<Extraction>,
                   capped: bool)
    requires AreTakenFrom(events, pages, was) && taken in Takings(batch, capped) && (was ==> capped && taken == [])
    ensures AreTakenFrom(events + taken, pages + batch, capped)
  {
    if was {
      assert events + taken == events;
    } else {
      TakenGoesOn(events, pages, taken, batch, capped);
    }
  }

  lemma TakesNothing(events: seq<Event>, pages: seq<Extraction>, was: bool, taken: seq<Event>, n: nat, capped: bool,
                     after: seq<Event>)
    requires after == events + taken && AreTakenFrom(events, pages, was) && (was ==> capped)
    requires taken != [] && taken[|taken| - 1].Stop?
    requires AreTakenFrom(taken[..|taken| - 1], PagesUpTo([], n), capped)
    ensures AreTakenFrom(after[..|after| - 1], pages, capped) && after[|after| - 1].Stop?
  {
    NoPolls(n);
    assert after[..|after| - 1] == events;
  }

  /** What the log says when this worker has gone on, whatever it has done. */
  lemma GoesOnLogged(worker: ExtractWorker, events: seq<Event>, taken: seq<Event>, log: seq<Tagged>)
    requires worker.Valid() && worker.events == events + taken
    requires Of(log, worker.config.workerId) == Sent(worker.config, events)
    ensures var tagged := Tag(worker.config.workerId, SentDuring(worker.config, events, taken));
            IsLogged(worker, log + tagged)
            && Untagged(log + tagged) == Untagged(log) + SentDuring(worker.config, events, taken)
  {
    SentSplits(worker.config, events, taken);
    TaggingOnlyAdds(log, worker.config.workerId, SentDuring(worker.config, events, taken), worker.config.workerId);
  }

  /** One worker takes a batch. */
  method TakeBatch(worker: ExtractWorker, batch: seq<Extraction>, ghost log: seq<Tagged>, ghost pages: seq<Extraction>)
      returns (ghost sent: seq<Request>)
    requires IsLogged(worker, log) && worker.store.Valid() && worker.store.log == Untagged(log)
    requires HasTaken(worker, pages)
    modifies worker, worker.store
    ensures IsLogged(worker, log + Tag(worker.config.workerId, sent)) && worker.store.Valid()
    ensures worker.store.log == Untagged(log + Tag(worker.config.workerId, sent))
    ensures HasTaken(worker, pages + batch)
  {
    ghost var events, was := worker.events, worker.ReachedMaxPages();
    ghost var taken := worker.ProcessBatch(batch);
    sent := SentDuring(worker.config, events, taken);
    GoesOnLogged(worker, events, taken, log);
    TakesBatch(events, pages, was, taken, batch, worker.ReachedMaxPages());
  }

  /** Nothing comes for one worker any more. */
  method ComeToEnd(worker: ExtractWorker, ghost log: seq<Tagged>, ghost pages: seq<Extraction>)
      returns (ghost sent: seq<Request>)
    requires IsLogged(worker, log) && worker.store.Valid() && worker.store.log == Untagged(log)
    requires HasTaken(worker, pages) && worker.config.idlePolls > 0
    modifies worker, worker.store
    ensures IsLogged(worker, log + Tag(worker.config.workerId, sent)) && worker.store.Valid()
    ensures worker.store.log == Untagged(log + Tag(worker.config.workerId, sent))
    ensures HasEndedWith(worker, pages)
  {
    ghost var events, was := worker.events, worker.ReachedMaxPages();
    ghost var taken, n;
    taken, n := worker.Run([]);
    sent := SentDuring(worker.config, events, taken);
    GoesOnLogged(worker, events, taken, log);
    TakesNothing(events, pages, was, taken, n, worker.ReachedMaxPages(), worker.events);
  }

  lemma OthersStayLogged(worker: ExtractWorker, log: seq<Tagged>, id: string, sent: seq<Request>)
    requires IsLogged(worker, log) && worker.config.workerId != id
    ensures IsLogged(worker, log + Tag(id, sent))
  {
    TaggingOnlyAdds(log, id, sent, worker.config.workerId);
  }

  /** The others are still logged, and the worker that has sent this is. */
  lemma TurnIsLogged(prefix: string, workers: seq<ExtractWorker>, i: nat, store: ExtractStore, log: seq<Tagged>,
                     sent: seq<Request>)
    requires IsTeam(prefix, workers, store) && i < |workers|
    requires SendersAreKnown(workers, log)
    requires forall k | 0 <= k < |workers| && k != i :: IsLogged(workers[k], log)
    requires IsLogged(workers[i], log + Tag(workers[i].config.workerId, sent))
    ensures AllLogged(workers, log + Tag(workers[i].config.workerId, sent))
  {
    var id := workers[i].config.workerId;
    var more := log + Tag(id, sent);
    forall k | 0 <= k < |workers| ensures IsLogged(workers[k], more) {
      if k != i { OthersStayLogged(workers[k], log, id, sent); }
    }
    forall k | 0 <= k < |more| ensures exists n :: 0 <= n < |workers| && workers[n].config.workerId == more[k].worker {
      if k < |log| { assert more[k] == log[k]; } else { assert workers[i].config.workerId == more[k].worker; }
    }
  }

  /** Each has processed its pages. */
  ghost predicate AllTaken(workers: seq<ExtractWorker>, pages: seq<seq<Extraction>>)
    reads set w | w in workers
  {
    |pages| == |workers| && forall i | 0 <= i < |workers| :: HasTaken(workers[i], pages[i])
  }

  method TakeTurn(prefix: string, workers: seq<ExtractWorker>, i: nat, store: ExtractStore, batch: seq<Extraction>,
                  ghost log: seq<Tagged>, ghost pages: seq<seq<Extraction>>)
      returns (ghost more: seq<Tagged>)
    requires IsTeam(prefix, workers, store) && i < |workers| && AllLogged(workers, log) && AllTaken(workers, pages)
    requires store.Valid() && store.log == Untagged(log)
    modifies workers[i], store
    ensures AllLogged(workers, more) && store.Valid() && store.log == Untagged(more)
    ensures AllTaken(workers, pages[i := pages[i] + batch])
  {
    ghost var sent := TakeBatch(workers[i], batch, log, pages[i]);
    more := log + Tag(workers[i].config.workerId, sent);
    TurnIsLogged(prefix, workers, i, store, log, sent);
  }

  ghost function RunsOf(workers: seq<ExtractWorker>): map<string, WorkerRun>
    reads set w | w in workers
  {
    if workers == [] then map[]
    else
      var w := workers[|workers| - 1];
      RunsOf(workers[..|workers| - 1])[w.config.workerId := WorkerRun(w.config, w.events)]
  }

  /** The pages of the turns that fall to worker `i`. */
  function PagesOf(turns: seq<(nat, seq<Extraction>)>, i: nat): seq<Extraction> {
    if turns == [] then []
    else
      var last := turns[|turns| - 1];
      PagesOf(turns[..|turns| - 1], i) + if last.0 == i then last.1 else []
  }

  function PagesOfAll(turns: seq<(nat, seq<Extraction>)>, n: nat): seq<seq<Extraction>> {
    seq(n, i requires 0 <= i < n => PagesOf(turns, i))
  }

  lemma OneMoreTurn(turns: seq<(nat, seq<Extraction>)>, t: nat, n: nat)
    requires t < |turns| && turns[t].0 < n
    ensures var pages := PagesOfAll(turns[..t], n);
            PagesOfAll(turns[..t + 1], n) == pages[turns[t].0 := pages[turns[t].0] + turns[t].1]
  {
    var last := turns[..t + 1];
    assert last[..t] == turns[..t];
    forall i | 0 <= i < n
      ensures PagesOf(last, i) == PagesOf(turns[..t], i) + if turns[t].0 == i then turns[t].1 else []
    {
    }
    assert forall i | 0 <= i < n && i != turns[t].0 :: PagesOf(last, i) == PagesOf(turns[..t], i);
  }

  method TakeTurns(prefix: string, workers: seq<ExtractWorker>, store: ExtractStore, turns: seq<(nat, seq<Extraction>)>,
                   ghost start: seq<Tagged>)
      returns (ghost log: seq<Tagged>)
    requires IsTeam(prefix, workers, store) && AllLogged(workers, start) && store.Valid()
    requires store.log == Untagged(start) && AllTaken(workers, PagesOfAll([], |workers|))
    requires forall t | 0 <= t < |turns| :: turns[t].0 < |workers|
    modifies store, set w | w in workers
    ensures AllLogged(workers, log) && store.Valid() && store.log == Untagged(log)
    ensures AllTaken(workers, PagesOfAll(turns, |workers|))
  {
    log := start;
    ghost var pages := PagesOfAll(turns[..0], |workers|);
    for t := 0 to |turns|
      invariant AllLogged(workers, log) && store.Valid() && store.log == Untagged(log)
      invariant pages == PagesOfAll(turns[..t], |workers|) && AllTaken(workers, pages)
    {
      OneMoreTurn(turns, t, |workers|);
      log := TakeTurn(prefix, workers, turns[t].0, store, turns[t].1, log, pages);
      pages := PagesOfAll(turns[..t + 1], |workers|);
    }
    assert turns[..|turns|] == turns;
  }

  /** The first `i` have come to their end, and the others have processed their pages. */
  ghost predicate FirstHaveEnded(workers: seq<ExtractWorker>, pages: seq<seq<Extraction>>, i: nat)
    reads set w | w in workers
  {
    && |pages| == |workers| && i <= |workers|
    && (forall k | 0 <= k < i :: HasEndedWith(workers[k], pages[k]))
    && forall k | i <= k < |workers| :: HasTaken(workers[k], pages[k])
  }

  method EndOne(prefix: string, workers: seq<ExtractWorker>, i: nat, store: ExtractStore, ghost log: seq<Tagged>,
                ghost pages: seq<seq<Extraction>>)
      returns (ghost more: seq<Tagged>)
    requires IsTeam(prefix, workers, store) && i < |workers| && AllLogged(workers, log)
    requires FirstHaveEnded(workers, pages, i) && store.Valid() && store.log == Untagged(log)
    modifies workers[i], store
    ensures AllLogged(workers, more) && store.Valid() && store.log == Untagged(more)
    ensures FirstHaveEnded(workers, pages, i + 1)
  {
    ghost var sent := ComeToEnd(workers[i], log, pages[i]);
    more := log + Tag(workers[i].config.workerId, sent);
    TurnIsLogged(prefix, workers, i, store, log, sent);
  }

  method EndAll(prefix: string, workers: seq<ExtractWorker>, store: ExtractStore, ghost start: seq<Tagged>,
                ghost pages: seq<seq<Extraction>>)
      returns (ghost log: seq<Tagged>)
    requires IsTeam(prefix, workers, store) && AllLogged(workers, start) && store.Valid()
    requires store.log == Untagged(start) && AllTaken(workers, pages)
    modifies store, set w | w in workers
    ensures AllLogged(workers, log) && store.Valid() && store.log == Untagged(log)
    ensures FirstHaveEnded(workers, pages, |workers|)
  {
    log := start;
    for i := 0 to |workers|
      invariant AllLogged(workers, log) && store.Valid() && store.log == Untagged(log)
      invariant FirstHaveEnded(workers, pages, i)
    {
      log := EndOne(prefix, workers, i, store, log, pages);
    }
  }

  lemma NothingIsLogged(workers: seq<ExtractWorker>)
    requires forall i | 0 <= i < |workers| :: workers[i].Valid() && workers[i].events == []
    ensures AllLogged(workers, []) && AllTaken(workers, PagesOfAll([], |workers|))
  {
  }

  /**
   Workers that share a store take turns in any order, until each has come to its end. Each has then processed the pages
   of its own turns in order, up to its cap, and all that they have sent is an extraction.
   */
  method ExtractTogether(prefix: string, workers: seq<ExtractWorker>, store: ExtractStore,
                         turns: seq<(nat, seq<Extraction>)>)
      returns (ghost log: seq<Tagged>)
    requires IsTeam(prefix, workers, store) && store.Valid() && store.log == []
    requires forall i | 0 <= i < |workers| :: workers[i].Valid() && workers[i].events == []
    requires forall t | 0 <= t < |turns| :: turns[t].0 < |workers|
    modifies store, set w | w in workers
    ensures forall i | 0 <= i < |workers| :: HasEndedWith(workers[i], PagesOf(turns, i))
    ensures IsExtraction(prefix, RunsOf(workers), log) && store.Valid() && store.log == Untagged(log)
  {
    NothingIsLogged(workers);
    log := TakeTurns(prefix, workers, store, turns, []);
    log := EndAll(prefix, workers, store, log, PagesOfAll(turns, |workers|));
    TeamIsAnExtraction(prefix, workers, store, log);
  }

  lemma {:induction false} RunsAreThere(workers: seq<ExtractWorker>)
    requires forall i, k | 0 <= i < k < |workers| :: workers[i].config.workerId != workers[k].config.workerId
    ensures forall i | 0 <= i < |workers| ::
              && workers[i].config.workerId in RunsOf(workers)
              && RunsOf(workers)[workers[i].config.workerId] == WorkerRun(workers[i].config, workers[i].events)
    ensures forall w | w in RunsOf(workers) :: exists i :: 0 <= i < |workers| && workers[i].config.workerId == w
  {
    if workers != [] {
      var init, n := workers[..|workers| - 1], |workers| - 1;
      RunsAreThere(init);
      forall i | 0 <= i < |workers|
        ensures workers[i].config.workerId in RunsOf(workers)
        ensures RunsOf(workers)[workers[i].config.workerId] == WorkerRun(workers[i].config, workers[i].events)
      {
        if i < n { assert init[i] == workers[i]; }
      }
      forall w | w in RunsOf(workers) ensures exists i :: 0 <= i < |workers| && workers[i].config.workerId == w {
        if w in RunsOf(init) {
          var i :| 0 <= i < |init| && init[i].config.workerId == w;
          assert workers[i].config.workerId == w;
        } else {
          assert workers[n].config.workerId == w;
        }
      }
    }
  }

  lemma WorkerHasRun(prefix: string, worker: ExtractWorker, run: WorkerRun, log: seq<Tagged>)
    requires worker.config.prefix == prefix && IsLogged(worker, log) && HasEnded(worker)
    requires run == WorkerRun(worker.config, worker.events)
    ensures IsRun(prefix, worker.config.workerId, run, Of(log, worker.config.workerId))
  {
  }

  /** What such a team leaves is what the indexing pipeline needs. */
  lemma TeamIsAnExtraction(prefix: string, workers: seq<ExtractWorker>, store: ExtractStore, log: seq<Tagged>)
    requires IsTeam(prefix, workers, store) && AllLogged(workers, log)
    requires forall i | 0 <= i < |workers| :: HasEnded(workers[i])
    ensures IsExtraction(prefix, RunsOf(workers), log)
  {
    RunsAreThere(workers);
    forall w | w in RunsOf(workers) ensures IsRun(prefix, w, RunsOf(workers)[w], Of(log, w)) {
      var i :| 0 <= i < |workers| && workers[i].config.workerId == w;
      WorkerHasRun(prefix, workers[i], RunsOf(workers)[w], log);
    }
    forall k | 0 <= k < |log| ensures log[k].worker in RunsOf(workers) {
      var i :| 0 <= i < |workers| && workers[i].config.workerId == log[k].worker;
    }
  }
}
