/**
 The rate limiter that crawl workers share through Redis, for one domain
 (src/beacon_scale_infra/crawl/rate_limiter.py). Every command is one atomic step, and the steps of any number
 of clients interleave; a client may also die at any point. Times are in milliseconds.
 */
module RedisRateLimiter {
  import opened Wrappers
  import opened Collections

  /** `uuid4`: no two acquisitions share a token. */
  datatype Token = Token(client: nat, use: nat)

  /** Where a client stands in `acquire`. `now` is read once, and kept when the transaction is retried. */
  datatype Client =
    | Away(uses: nat)
    | AtDoor(token: Token)                                            // the delay gate has let it through
    | Ready(token: Token, now: int)
    | Watched(token: Token, now: int, seen: nat)
    | Purged(token: Token, now: int, seen: nat)
    | Counted(token: Token, now: int, seen: nat, count: nat)
    | Holding(token: Token, expires: int)
    | Dead

  /** Redis aborts a transaction whose key changed since WATCH; whether a client's own write counts is left open. */
  datatype Setup = Setup(maxConcurrent: nat, leaseTtl: int, ownWritesAbort: bool)

  /**
   `version` counts the changes of the lease set; `passes` and `grants` are histories, and `entered` says with which
   pass each client got through the gate last.
   */
  datatype System = System(
    clock: int,
    gateUntil: int,
    leases: map<Token, int>,
    version: nat,
    clients: seq<Client>,
    passes: seq<Pass>,
    grants: seq<Grant>,
    entered: map<nat, nat>)

  datatype Pass = Pass(at: int, delay: int)

  /** A lease was granted, to a client that the gate had let through with this pass. */
  datatype Grant = Grant(at: int, pass: Option<nat>)

  datatype Event =
    | Tick(ms: nat)
    | Knock(client: nat, delay: int)        // SET gate NX PX delay, unless delay <= 0
    | Begin(client: nat, reading: int)      // time.time() on the client's own machine
    | Proceed(client: nat)                  // the client's next command
    | Release(client: nat)
    | Die(client: nat)

  function Start(n: nat): System {
    System(0, 0, map[], 0, seq(n, _ => Away(0)), [], [], map[])
  }

  function Unexpired(leases: map<Token, int>, now: int): map<Token, int> {
    map t | t in leases && leases[t] > now :: leases[t]
  }

  function With(s: System, w: nat, c: Client): System
    requires w < |s.clients|
  {
    s.(clients := s.clients[w := c])
  }

  function KnockStep(s: System, w: nat, delay: int): System
    requires w < |s.clients|
  {
    match s.clients[w]
    case Away(uses) =>
      if delay <= 0 then With(s, w, AtDoor(Token(w, uses))).(entered := s.entered - {w})
      else if s.gateUntil > s.clock then s
      else With(s, w, AtDoor(Token(w, uses))).(gateUntil := s.clock + delay,
                                               passes := s.passes + [Pass(s.clock, delay)],
                                               entered := s.entered[w := |s.passes|])
    case _ => s
  }

  /** ZREMRANGEBYSCORE key -inf now */
  function PurgeStep(setup: Setup, s: System, w: nat, c: Client): System
    requires w < |s.clients| && c.Watched?
  {
    var left := Unexpired(s.leases, c.now);
    if left == s.leases then With(s, w, Purged(c.token, c.now, c.seen))
    else
      var seen := if c.seen == s.version && !setup.ownWritesAbort then s.version + 1 else c.seen;
      With(s, w, Purged(c.token, c.now, seen)).(leases := left, version := s.version + 1)
  }

  function GrantTo(s: System, w: nat): Grant {
    Grant(s.clock, if w in s.entered then Some(s.entered[w]) else None)
  }

  /** UNWATCH when the semaphore is full, and otherwise ZADD in a transaction that a change aborts. */
  function ExecStep(setup: Setup, s: System, w: nat, c: Client): System
    requires w < |s.clients| && c.Counted?
  {
    if c.count >= setup.maxConcurrent then With(s, w, Away(c.token.use))
    else if c.seen != s.version then With(s, w, Ready(c.token, c.now))
    else
      With(s, w, Holding(c.token, c.now + setup.leaseTtl))
        .(leases := s.leases[c.token := c.now + setup.leaseTtl], version := s.version + 1,
         grants := s.grants + [GrantTo(s, w)])
  }

  function ProceedStep(setup: Setup, s: System, w: nat): System
    requires w < |s.clients|
  {
    match s.clients[w]
    case Ready(token, now) => With(s, w, Watched(token, now, s.version))
    case Watched(_, _, _) => PurgeStep(setup, s, w, s.clients[w])
    case Purged(token, now, seen) => With(s, w, Counted(token, now, seen, |s.leases|))
    case Counted(_, _, _, _) => ExecStep(setup, s, w, s.clients[w])
    case _ => s
  }

  /** ZREM key token */
  function ReleaseStep(s: System, w: nat): System
    requires w < |s.clients|
  {
    match s.clients[w]
    case Holding(token, _) =>
      var s' := With(s, w, Away(token.use + 1));
      if token in s.leases then s'.(leases := s.leases - {token}, version := s.version + 1) else s'
    case _ => s
  }

  function Step(setup: Setup, s: System, e: Event): System {
    match e
    case Tick(ms) => s.(clock := s.clock + ms)
    case Knock(w, delay) => if w < |s.clients| then KnockStep(s, w, delay) else s
    case Begin(w, reading) =>
      if w < |s.clients| && s.clients[w].AtDoor? then With(s, w, Ready(s.clients[w].token, reading)) else s
    case Proceed(w) => if w < |s.clients| then ProceedStep(setup, s, w) else s
    case Release(w) => if w < |s.clients| then ReleaseStep(s, w) else s
    case Die(w) => if w < |s.clients| then With(s, w, Dead) else s
  }

  function Run(setup: Setup, s: System, events: seq<Event>): System {
    if events == [] then s else Step(setup, Run(setup, s, events[..|events| - 1]), events[|events| - 1])
  }

  // ---------------------------------------------------------------------------- the semaphore's capacity

  /** A count that no change of the key has overtaken is still right. */
  ghost predicate CountsAreFresh(s: System) {
    forall w | 0 <= w < |s.clients| && s.clients[w].Counted? ::
      s.clients[w].seen <= s.version && (s.clients[w].seen == s.version ==> s.clients[w].count == |s.leases|)
  }

  ghost predicate SeenIsPast(s: System) {
    forall w | 0 <= w < |s.clients| :: match s.clients[w]
      case Watched(_, _, seen) => seen <= s.version
      case Purged(_, _, seen) => seen <= s.version
      case _ => true
  }

  ghost predicate WithinCapacity(setup: Setup, s: System) {
    |s.leases| <= setup.maxConcurrent && CountsAreFresh(s) && SeenIsPast(s)
  }

  lemma FewerLeases(leases: map<Token, int>, now: int)
    ensures |Unexpired(leases, now)| <= |leases|
  {
    SubsetIsNoLarger(Unexpired(leases, now).Keys, leases.Keys);
  }

  /** A step leaves the lease set alone or counts up its version, and never makes it overflow. */
  ghost predicate LeasesStayFew(setup: Setup, s: System, s': System) {
    && |s'.leases| <= setup.maxConcurrent && s'.version >= s.version
    && (s'.version == s.version ==> s'.leases == s.leases)
  }

  /** What a client saw is past, and what it counted is right unless it has been overtaken. */
  ghost predicate IsUpToDate(s: System, c: Client) {
    match c
    case Watched(_, _, seen) => seen <= s.version
    case Purged(_, _, seen) => seen <= s.version
    case Counted(_, _, seen, count) => seen <= s.version && (seen == s.version ==> count == |s.leases|)
    case _ => true
  }

  lemma AllUpToDate(s: System)
    ensures CountsAreFresh(s) && SeenIsPast(s) <==> forall w | 0 <= w < |s.clients| :: IsUpToDate(s, s.clients[w])
  {
    if forall w | 0 <= w < |s.clients| :: IsUpToDate(s, s.clients[w]) {
      assert forall w | 0 <= w < |s.clients| && s.clients[w].Counted? :: IsUpToDate(s, s.clients[w]);
    }
  }

  lemma ProceedStaysWithinCapacity(setup: Setup, s: System, w: nat)
    requires setup.maxConcurrent > 0 && |s.leases| <= setup.maxConcurrent && w < |s.clients|
    requires IsUpToDate(s, s.clients[w])
    ensures var s' := ProceedStep(setup, s, w); LeasesStayFew(setup, s, s') && IsUpToDate(s', s'.clients[w])
  {
    match s.clients[w]
    case Watched(_, now, _) => FewerLeases(s.leases, now);
    case Counted(_, _, _, _) =>
    case _ =>
  }

  lemma ReleaseStaysWithinCapacity(setup: Setup, s: System, w: nat)
    requires |s.leases| <= setup.maxConcurrent && w < |s.clients| && IsUpToDate(s, s.clients[w])
    ensures var s' := ReleaseStep(s, w); LeasesStayFew(setup, s, s') && IsUpToDate(s', s'.clients[w])
  {
    if s.clients[w].Holding? { SubsetIsNoLarger((s.leases - {s.clients[w].token}).Keys, s.leases.Keys); }
  }

  lemma OwnStepStaysWithinCapacity(setup: Setup, s: System, e: Event)
    requires setup.maxConcurrent > 0 && |s.leases| <= setup.maxConcurrent && !e.Tick? && e.client < |s.clients|
    requires IsUpToDate(s, s.clients[e.client])
    ensures var s' := Step(setup, s, e); LeasesStayFew(setup, s, s') && IsUpToDate(s', s'.clients[e.client])
  {
    match e
    case Proceed(w) => ProceedStaysWithinCapacity(setup, s, w);
    case Release(w) => ReleaseStaysWithinCapacity(setup, s, w);
    case Knock(_, _) =>
    case Begin(_, _) =>
    case Die(_) =>
  }

  lemma StepStaysWithinCapacity(setup: Setup, s: System, e: Event)
    requires setup.maxConcurrent > 0 && WithinCapacity(setup, s)
    ensures WithinCapacity(setup, Step(setup, s, e))
  {
    var s' := Step(setup, s, e);
    AllUpToDate(s);
    AllUpToDate(s');
    if !e.Tick? && e.client < |s.clients| {
      OwnStepStaysWithinCapacity(setup, s, e);
      OthersStand(setup, s, e);
      forall v | 0 <= v < |s'.clients| ensures IsUpToDate(s', s'.clients[v]) {
        assert IsUpToDate(s, s.clients[v]);
        if v != e.client { assert s'.clients[v] == s.clients[v]; }
      }
    } else {
      forall v | 0 <= v < |s'.clients| ensures IsUpToDate(s', s'.clients[v]) { assert IsUpToDate(s, s.clients[v]); }
    }
  }

  /** A step concerns its own client only. */
  lemma OthersStand(setup: Setup, s: System, e: Event)
    requires !e.Tick? && e.client < |s.clients|
    ensures var s', w := Step(setup, s, e), e.client; s'.clients == s.clients[w := s'.clients[w]]
  {
    match e
    case Proceed(w) =>
      match s.clients[w] {
        case Watched(_, _, _) =>
        case Counted(_, _, _, _) =>
        case _ =>
      }
    case Knock(_, _) =>
    case Begin(_, _) =>
    case Release(_) =>
    case Die(_) =>
  }

  /** Whatever the clocks say, and however transactions interleave and are retried, the lease set never overflows. */
  lemma {:induction false} LeasesNeverExceedCapacity(setup: Setup, n: nat, events: seq<Event>)
    requires setup.maxConcurrent > 0
    ensures WithinCapacity(setup, Run(setup, Start(n), events))
  {
    if events != [] {
      LeasesNeverExceedCapacity(setup, n, events[..|events| - 1]);
      StepStaysWithinCapacity(setup, Run(setup, Start(n), events[..|events| - 1]), events[|events| - 1]);
    }
  }

  lemma {:induction false} RunAppends(setup: Setup, s: System, a: seq<Event>, b: seq<Event>)
    ensures Run(setup, s, a + b) == Run(setup, Run(setup, s, a), b)
  {
    if b == [] {
      assert a + b == a;
    } else {
      var init := b[..|b| - 1];
      assert (a + b)[..|a + b| - 1] == a + init;
      RunAppends(setup, s, a, init);
    }
  }

  // -------------------------------------------------------------- holders, when clocks agree up to a skew

  /** No client's clock is ever more than `skew` ahead of the shared one. */
  ghost predicate ClocksWithin(setup: Setup, n: nat, events: seq<Event>, skew: nat) {
    forall i | 0 <= i < |events| && events[i].Begin? ::
      events[i].reading <= Run(setup, Start(n), events[..i]).clock + skew
  }

  ghost predicate ClientIsListed(s: System, w: nat, skew: nat)
    requires w < |s.clients|
  {
    var latest := s.clock + skew;
    match s.clients[w]
    case AtDoor(token) => token.client == w
    case Ready(token, now) => token.client == w && now <= latest
    case Watched(token, now, _) => token.client == w && now <= latest
    case Purged(token, now, _) => token.client == w && now <= latest
    case Counted(token, now, _, _) => token.client == w && now <= latest
    case Holding(token, expires) =>
      token.client == w && (expires > latest ==> token in s.leases && s.leases[token] == expires)
    case _ => true
  }

  ghost predicate HoldersAreListed(s: System, skew: nat) {
    forall w: nat | w < |s.clients| :: ClientIsListed(s, w, skew)
  }

  /** A step of one client takes away no lease of another that runs long enough, and touches nobody else. */
  lemma OtherLeasesSurvive(setup: Setup, s: System, e: Event, skew: nat, t: Token)
    requires HoldersAreListed(s, skew) && (e.Begin? ==> e.reading <= s.clock + skew)
    requires t in s.leases && s.leases[t] > s.clock + skew && !e.Tick? && t.client != e.client
    ensures var s' := Step(setup, s, e); t in s'.leases && s'.leases[t] == s.leases[t]
  {
    if e.client < |s.clients| { assert ClientIsListed(s, e.client, skew); }
  }

  lemma StepKeepsHoldersListed(setup: Setup, s: System, e: Event, skew: nat)
    requires HoldersAreListed(s, skew) && (e.Begin? ==> e.reading <= s.clock + skew)
    ensures HoldersAreListed(Step(setup, s, e), skew)
  {
    var s' := Step(setup, s, e);
    forall v: nat | v < |s'.clients| ensures ClientIsListed(s', v, skew) {
      assert ClientIsListed(s, v, skew);
      if !e.Tick? {
        if e.client == v {
          OwnLeaseIsListed(setup, s, e, skew);
        } else {
          OtherClientIsListed(setup, s, e, skew, v);
        }
      }
    }
  }

  lemma OtherClientIsListed(setup: Setup, s: System, e: Event, skew: nat, v: nat)
    requires HoldersAreListed(s, skew) && (e.Begin? ==> e.reading <= s.clock + skew)
    requires v < |s.clients| && !e.Tick? && e.client != v
    ensures ClientIsListed(Step(setup, s, e), v, skew)
  {
    assert ClientIsListed(s, v, skew);
    var c, s' := s.clients[v], Step(setup, s, e);
    assert s'.clients[v] == c && s'.clock == s.clock;
    if c.Holding? && c.expires > s.clock + skew { OtherLeasesSurvive(setup, s, e, skew, c.token); }
  }

  lemma OwnLeaseIsListed(setup: Setup, s: System, e: Event, skew: nat)
    requires HoldersAreListed(s, skew) && (e.Begin? ==> e.reading <= s.clock + skew)
    requires !e.Tick? && e.client < |s.clients|
    ensures ClientIsListed(Step(setup, s, e), e.client, skew)
  {
    assert ClientIsListed(s, e.client, skew);
  }

  lemma {:induction false} EveryRunListsHolders(setup: Setup, n: nat, events: seq<Event>, skew: nat)
    requires ClocksWithin(setup, n, events, skew)
    ensures HoldersAreListed(Run(setup, Start(n), events), skew)
  {
    if events != [] {
      var init := events[..|events| - 1];
      assert forall i | 0 <= i < |init| :: init[..i] == events[..i];
      EveryRunListsHolders(setup, n, init, skew);
      StepKeepsHoldersListed(setup, Run(setup, Start(n), init), events[|events| - 1], skew);
    }
  }

  /** The clients whose lease runs for longer than `skew` from now. */
  ghost function Holders(s: System, skew: nat): set<nat> {
    set w: nat | w < |s.clients| && s.clients[w].Holding? && s.clients[w].expires > s.clock + skew
  }

  ghost function TokensOf(s: System, some: set<nat>): set<Token> {
    set t | t in s.leases && t.client in some
  }

  lemma {:induction false} OneTokenEach(s: System, skew: nat, some: set<nat>)
    requires HoldersAreListed(s, skew) && some <= Holders(s, skew)
    ensures |some| <= |TokensOf(s, some)|
  {
    if some != {} {
      var w :| w in some;
      assert ClientIsListed(s, w, skew);
      var token := s.clients[w].token;
      OneTokenEach(s, skew, some - {w});
      SubsetIsNoLarger(TokensOf(s, some - {w}), TokensOf(s, some) - {token});
    }
  }

  /** At most `maxConcurrent` clients hold a lease that has not run out, and with one shared clock that is `skew` 0. */
  lemma HoldersNeverExceedCapacity(setup: Setup, n: nat, events: seq<Event>, skew: nat)
    requires setup.maxConcurrent > 0 && ClocksWithin(setup, n, events, skew)
    ensures |Holders(Run(setup, Start(n), events), skew)| <= setup.maxConcurrent
  {
    var s := Run(setup, Start(n), events);
    LeasesNeverExceedCapacity(setup, n, events);
    EveryRunListsHolders(setup, n, events, skew);
    OneTokenEach(s, skew, Holders(s, skew));
    SubsetIsNoLarger(TokensOf(s, Holders(s, skew)), s.leases.Keys);
  }

  /** Giving a lease back takes it away and no other one, even when it has long run out. */
  lemma ReleaseFreesOnlyItsOwn(setup: Setup, s: System, w: nat, skew: nat)
    requires HoldersAreListed(s, skew)
    ensures Holders(s, skew) - {w} == Holders(Step(setup, s, Release(w)), skew) - {w}
    ensures forall t | t in s.leases && t.client != w :: t in Step(setup, s, Release(w)).leases
    ensures w < |s.clients| && s.clients[w].Holding? ==>
              && s.clients[w].token !in Step(setup, s, Release(w)).leases
              && w !in Holders(Step(setup, s, Release(w)), skew)
  {
    if w < |s.clients| { assert ClientIsListed(s, w, skew); }
  }

  // ----------------------------------------------------------------------- one client that is left alone

  function Retry(w: nat): seq<Event> {
    [Proceed(w), Proceed(w), Proceed(w), Proceed(w)]
  }

  /** Time and the delay gate are as they were. */
  predicate GateStands(s: System, s': System) {
    s'.clock == s.clock && s'.gateUntil == s.gateUntil && s'.passes == s.passes && s'.entered == s.entered
  }

  lemma WatchAndPurge(setup: Setup, s: System, w: nat)
    requires w < |s.clients| && s.clients[w].Ready?
    ensures var c, s' := s.clients[w], Step(setup, Step(setup, s, Proceed(w)), Proceed(w));
            var left := Unexpired(s.leases, c.now);
            && s' == s.(clients := s'.clients, leases := left, version := s'.version)
            && exists seen :: s'.clients == s.clients[w := Purged(c.token, c.now, seen)]
                              && (seen == s'.version <==> left == s.leases || !setup.ownWritesAbort)
  {
    var c, s' := s.clients[w], Step(setup, Step(setup, s, Proceed(w)), Proceed(w));
    assert s'.clients == s.clients[w := Purged(c.token, c.now, s'.clients[w].seen)];
  }

  lemma CountAndExec(setup: Setup, s: System, w: nat)
    requires w < |s.clients| && s.clients[w].Purged?
    ensures var c, s' := s.clients[w], Step(setup, Step(setup, s, Proceed(w)), Proceed(w));
            && GateStands(s, s')
            && (if |s.leases| >= setup.maxConcurrent then s' == s.(clients := s.clients[w := Away(c.token.use)])
                else if c.seen != s.version then s' == s.(clients := s.clients[w := Ready(c.token, c.now)])
                else s'.clients == s.clients[w := Holding(c.token, c.now + setup.leaseTtl)]
                     && s'.leases == s.leases[c.token := c.now + setup.leaseTtl]
                     && s'.grants == s.grants + [GrantTo(s, w)])
  {
    var c, m := s.clients[w], Step(setup, s, Proceed(w));
    assert m == s.(clients := s.clients[w := Counted(c.token, c.now, c.seen, |s.leases|)]);
  }

  /** What one uninterrupted pass through the transaction comes to. */
  lemma FourCommands(setup: Setup, s: System, w: nat)
    requires w < |s.clients| && s.clients[w].Ready?
    ensures var c, s' := s.clients[w], Run(setup, s, Retry(w));
            var left := Unexpired(s.leases, c.now);
            && GateStands(s, s')
            && (if |left| >= setup.maxConcurrent then
                  s'.clients == s.clients[w := Away(c.token.use)] && s'.leases == left && s'.grants == s.grants
                else if left != s.leases && setup.ownWritesAbort then
                  s'.clients == s.clients && s'.leases == left && s'.grants == s.grants
                else
                  && s'.clients == s.clients[w := Holding(c.token, c.now + setup.leaseTtl)]
                  && s'.leases == left[c.token := c.now + setup.leaseTtl] && s'.grants == s.grants + [GrantTo(s, w)])
  {
    var b := Step(setup, Step(setup, s, Proceed(w)), Proceed(w));
    Unrolled(setup, s, Proceed(w), Proceed(w), Proceed(w), Proceed(w));
    WatchAndPurge(setup, s, w);
    CountAndExec(setup, b, w);
  }

  lemma Unrolled(setup: Setup, s: System, e: Event, f: Event, g: Event, h: Event)
    ensures Run(setup, s, [e, f, g, h]) == Step(setup, Step(setup, Step(setup, Step(setup, s, e), f), g), h)
  {
    RunAppends(setup, s, [e], [f, g, h]);
    RunAppends(setup, Run(setup, s, [e]), [f], [g, h]);
    RunAppends(setup, Run(setup, Run(setup, s, [e]), [f]), [g], [h]);
    assert [e] + [f, g, h] == [e, f, g, h] && [f] + [g, h] == [f, g, h] && [g] + [h] == [g, h];
    RunOne(setup, s, e);
    RunOne(setup, Step(setup, s, e), f);
    RunOne(setup, Step(setup, Step(setup, s, e), f), g);
    RunOne(setup, Step(setup, Step(setup, Step(setup, s, e), f), g), h);
  }

  lemma RunOne(setup: Setup, s: System, e: Event)
    ensures Run(setup, s, [e]) == Step(setup, s, e)
  {
    assert [e][..0] == [];
  }

  /** `_try_acquire_semaphore` with nobody in between: at most one retry, after its own purge. */
  function Attempt(w: nat, reading: int): seq<Event> {
    [Begin(w, reading)] + (Retry(w) + Retry(w))
  }

  ghost predicate Granted(setup: Setup, s: System, w: nat, token: Token, now: int, s': System)
    requires w < |s.clients|
  {
    && s'.clients == s.clients[w := Holding(token, now + setup.leaseTtl)]
    && s'.leases == Unexpired(s.leases, now)[token := now + setup.leaseTtl]
    && s'.grants == s.grants + [GrantTo(s, w)] && GateStands(s, s')
  }

  ghost predicate Refused(s: System, w: nat, token: Token, now: int, s': System)
    requires w < |s.clients|
  {
    && s'.clients == s.clients[w := Away(token.use)]
    && s'.leases == Unexpired(s.leases, now) && s'.grants == s.grants && GateStands(s, s')
  }

  lemma PurgingTwice(leases: map<Token, int>, now: int)
    ensures Unexpired(Unexpired(leases, now), now) == Unexpired(leases, now)
  {
  }

  /** What an attempt comes to, by a client that is ready to start its transaction. */
  ghost predicate IsDecided(setup: Setup, s: System, w: nat, s': System)
    requires w < |s.clients| && s.clients[w].Ready?
  {
    var token, now := s.clients[w].token, s.clients[w].now;
    if |Unexpired(s.leases, now)| < setup.maxConcurrent then Granted(setup, s, w, token, now, s')
    else Refused(s, w, token, now, s')
  }

  lemma RetriedOnce(setup: Setup, s: System, w: nat, b: System)
    requires setup.maxConcurrent > 0 && w < |s.clients| && s.clients[w].Ready?
    requires b.clients == s.clients && b.leases == Unexpired(s.leases, s.clients[w].now) && b.grants == s.grants
    requires GateStands(s, b)
    ensures IsDecided(setup, s, w, Run(setup, b, Retry(w)))
  {
    FourCommands(setup, b, w);
    PurgingTwice(s.leases, s.clients[w].now);
  }

  lemma EightCommands(setup: Setup, s: System, w: nat)
    requires setup.maxConcurrent > 0 && w < |s.clients| && s.clients[w].Ready?
    ensures IsDecided(setup, s, w, Run(setup, s, Retry(w) + Retry(w)))
  {
    FourCommands(setup, s, w);
    RunAppends(setup, s, Retry(w), Retry(w));
    var b := Run(setup, s, Retry(w));
    if b.clients[w].Ready? { RetriedOnce(setup, s, w, b); } else { SettledStays(setup, b, w); }
  }

  /** The leases that have not run out when the clock shows this. */
  function RunningAt(leases: map<Token, int>, reading: int): set<Token> {
    set t | t in leases && reading < leases[t]
  }

  lemma UnexpiredAreRunning(leases: map<Token, int>, reading: int)
    ensures |Unexpired(leases, reading)| == |RunningAt(leases, reading)|
  {
    assert Unexpired(leases, reading).Keys == RunningAt(leases, reading);
  }

  /** An attempt that is left alone succeeds exactly if, by its own clock, a lease is free. */
  lemma AttemptAloneSucceedsIff(setup: Setup, s: System, w: nat, reading: int)
    requires setup.maxConcurrent > 0 && w < |s.clients| && s.clients[w].AtDoor?
    ensures var token, s' := s.clients[w].token, Run(setup, s, Attempt(w, reading));
            if |RunningAt(s.leases, reading)| < setup.maxConcurrent then Granted(setup, s, w, token, reading, s')
            else Refused(s, w, token, reading, s')
  {
    UnexpiredAreRunning(s.leases, reading);
    RunOne(setup, s, Begin(w, reading));
    RunAppends(setup, s, [Begin(w, reading)], Retry(w) + Retry(w));
    var a := With(s, w, Ready(s.clients[w].token, reading));
    EightCommands(setup, a, w);
    var held, away := Holding(s.clients[w].token, reading + setup.leaseTtl), Away(s.clients[w].token.use);
    assert a.clients[w := held] == s.clients[w := held] && a.clients[w := away] == s.clients[w := away];
  }

  lemma SettledStays(setup: Setup, s: System, w: nat)
    requires w < |s.clients| && (s.clients[w].Holding? || s.clients[w].Away?)
    ensures Run(setup, s, Retry(w)) == s
  {
    Unrolled(setup, s, Proceed(w), Proceed(w), Proceed(w), Proceed(w));
  }

  // ------------------------------------------------------------------------------------- the delay gate

  function Past(c: Client): nat {
    if c.AtDoor? || c.Ready? || c.Watched? || c.Purged? || c.Counted? then 1 else 0
  }

  /** How many clients the gate has let through that are still after a lease. */
  function PastTheGate(clients: seq<Client>): nat {
    Total(Past, clients)
  }

  lemma {:induction false} NobodyPastTheGate(n: nat)
    ensures PastTheGate(seq(n, _ => Away(0))) == 0
  {
    if n > 0 {
      assert seq(n, _ => Away(0))[..n - 1] == seq(n - 1, _ => Away(0));
      NobodyPastTheGate(n - 1);
    }
  }

  /** Passes are spaced by the delay that each asked for; every lease that was granted used up a pass of its own. */
  ghost predicate GateKeeps(s: System, delay: nat) {
    Spaced(s, delay) && |s.grants| + PastTheGate(s.clients) <= |s.passes|
  }

  ghost predicate Spaced(s: System, delay: nat) {
    && (forall i | 0 <= i < |s.passes| :: s.passes[i].delay >= delay && s.passes[i].at <= s.clock)
    && (forall i | 0 < i < |s.passes| :: s.passes[i].at >= s.passes[i - 1].at + s.passes[i - 1].delay)
    && (s.passes != [] ==> var last := s.passes[|s.passes| - 1];
          s.gateUntil == last.at + last.delay && (|s.passes| - 1) * delay <= last.at)
  }

  lemma StepKeepsSpacing(setup: Setup, s: System, e: Event, delay: nat)
    requires Spaced(s, delay) && s.clock >= 0 && delay > 0 && (e.Knock? ==> e.delay >= delay)
    ensures Spaced(Step(setup, s, e), delay) && Step(setup, s, e).clock >= 0
  {
    var s' := Step(setup, s, e);
    if s'.passes == s.passes {
      assert s'.gateUntil == s.gateUntil && s'.clock >= s.clock;
    } else {
      assert s'.passes == s.passes + [Pass(s.clock, e.delay)] && s'.gateUntil == s.clock + e.delay
          && s'.clock == s.clock;
      PassKeepsSpacing(s, e.delay, delay, s');
    }
  }

  lemma PassKeepsSpacing(s: System, wait: int, delay: nat, s': System)
    requires Spaced(s, delay) && s.clock >= 0 && wait >= delay > 0 && s.gateUntil <= s.clock
    requires s'.passes == s.passes + [Pass(s.clock, wait)] && s'.gateUntil == s.clock + wait && s'.clock == s.clock
    ensures Spaced(s', delay)
  {
    if s.passes != [] { assert (|s.passes| - 1) * delay + delay == |s.passes| * delay; }
  }

  /** A client gets past the gate with a pass, and each lease takes one client back out. */
  lemma StepUsesPasses(setup: Setup, s: System, e: Event)
    requires !e.Tick? && e.client < |s.clients| && (e.Knock? ==> e.delay > 0)
    ensures var s', w := Step(setup, s, e), e.client;
            |s'.grants| + Past(s'.clients[w]) + |s.passes| <= |s.grants| + Past(s.clients[w]) + |s'.passes|
  {
  }

  lemma StepKeepsGate(setup: Setup, s: System, e: Event, delay: nat)
    requires GateKeeps(s, delay) && s.clock >= 0 && delay > 0 && (e.Knock? ==> e.delay >= delay)
    ensures GateKeeps(Step(setup, s, e), delay) && Step(setup, s, e).clock >= 0
  {
    StepKeepsSpacing(setup, s, e, delay);
    if !e.Tick? && e.client < |s.clients| {
      StepUsesPasses(setup, s, e);
      OthersStand(setup, s, e);
      TotalAfterUpdate(Past, s.clients, e.client, Step(setup, s, e).clients[e.client]);
    }
  }

  lemma {:induction false} EveryRunKeepsGate(setup: Setup, n: nat, events: seq<Event>, delay: nat)
    requires delay > 0 && forall e | e in events && e.Knock? :: e.delay >= delay
    ensures GateKeeps(Run(setup, Start(n), events), delay) && Run(setup, Start(n), events).clock >= 0
  {
    if events == [] {
      NobodyPastTheGate(n);
    } else {
      EveryRunKeepsGate(setup, n, events[..|events| - 1], delay);
      StepKeepsGate(setup, Run(setup, Start(n), events[..|events| - 1]), events[|events| - 1], delay);
    }
  }

  /** In the long run, then, grants keep the rate: no more than one per delay, plus one. */
  lemma GrantsKeepTheRate(setup: Setup, n: nat, events: seq<Event>, delay: nat)
    requires delay > 0 && forall e | e in events && e.Knock? :: e.delay >= delay
    ensures var s := Run(setup, Start(n), events); s.grants != [] ==> (|s.grants| - 1) * delay <= s.clock
  {
    EveryRunKeepsGate(setup, n, events, delay);
    if Run(setup, Start(n), events).grants != [] { GateKeepsTheRate(Run(setup, Start(n), events), delay); }
  }

  lemma GateKeepsTheRate(s: System, delay: nat)
    requires GateKeeps(s, delay) && s.grants != []
    ensures (|s.grants| - 1) * delay <= s.clock
  {
    var last := s.passes[|s.passes| - 1];
    assert (|s.passes| - 1) * delay <= last.at <= s.clock;
    Times(|s.grants| - 1, |s.passes| - 1, delay);
  }

  lemma Times(a: nat, b: nat, k: nat)
    requires a <= b
    ensures a * k <= b * k
  {
  }

  // ------------------------------------------------------------------------------ what the limits are

  lemma Extend(setup: Setup, s: System, events: seq<Event>, e: Event)
    ensures Run(setup, s, events + [e]) == Step(setup, Run(setup, s, events), e)
  {
    assert (events + [e])[..|events|] == events;
  }

  predicate IsClose(reading: int, clock: int, skew: nat) {
    clock - skew <= reading <= clock + skew
  }

  /** All clocks are within `skew` of the shared one whenever they are read. */
  ghost predicate ClocksAgree(setup: Setup, n: nat, events: seq<Event>, skew: nat) {
    forall i | 0 <= i < |events| && events[i].Begin? ::
      IsClose(events[i].reading, Run(setup, Start(n), events[..i]).clock, skew)
  }

  /** Some run of `n` clients whose clocks agree comes to this. */
  ghost predicate CanBe(setup: Setup, n: nat, skew: nat, s: System) {
    exists events :: ClocksAgree(setup, n, events, skew) && Run(setup, Start(n), events) == s
  }

  lemma NothingHasHappened(setup: Setup, n: nat, skew: nat)
    ensures CanBe(setup, n, skew, Start(n))
  {
    assert ClocksAgree(setup, n, [], skew) && Run(setup, Start(n), []) == Start(n);
  }

  lemma GoesOn(setup: Setup, n: nat, skew: nat, s: System, e: Event)
    requires CanBe(setup, n, skew, s) && (e.Begin? ==> IsClose(e.reading, s.clock, skew))
    ensures CanBe(setup, n, skew, Step(setup, s, e))
  {
    var events :| ClocksAgree(setup, n, events, skew) && Run(setup, Start(n), events) == s;
    Extend(setup, Start(n), events, e);
    var more := events + [e];
    forall i | 0 <= i < |more| && more[i].Begin?
      ensures IsClose(more[i].reading, Run(setup, Start(n), more[..i]).clock, skew)
    {
      assert more[..i] == events[..i];
    }
    assert ClocksAgree(setup, n, more, skew);
  }

  lemma GoesOnToTheEnd(setup: Setup, n: nat, skew: nat, s: System, w: nat)
    requires CanBe(setup, n, skew, s)
    ensures CanBe(setup, n, skew, Run(setup, s, Retry(w)))
  {
    var e := Proceed(w);
    Unrolled(setup, s, e, e, e, e);
    GoesOn(setup, n, skew, s, e);
    GoesOn(setup, n, skew, Step(setup, s, e), e);
    GoesOn(setup, n, skew, Step(setup, Step(setup, s, e), e), e);
    GoesOn(setup, n, skew, Step(setup, Step(setup, Step(setup, s, e), e), e), e);
  }

  /** The first `k` clients have read their clocks at 0 and go no further for now. */
  ghost predicate HaveBegun(s: System, n: nat, k: nat) {
    && s.clock == 0 && s.leases == map[] && |s.clients| == n && k <= n
    && forall w: nat | w < n :: s.clients[w] == if w < k then Ready(Token(w, 0), 0) else Away(0)
  }

  lemma {:induction false} SomeHaveBegun(setup: Setup, n: nat, skew: nat, k: nat) returns (s: System)
    requires k <= n
    ensures CanBe(setup, n, skew, s) && HaveBegun(s, n, k)
  {
    if k == 0 {
      s := Start(n);
      NothingHasHappened(setup, n, skew);
    } else {
      s := SomeHaveBegun(setup, n, skew, k - 1);
      GoesOn(setup, n, skew, s, Knock(k - 1, 0));
      s := Step(setup, s, Knock(k - 1, 0));
      GoesOn(setup, n, skew, s, Begin(k - 1, 0));
      s := Step(setup, s, Begin(k - 1, 0));
    }
  }

  /**
   Just before leases taken at 0 run out, the first `k` of `m` clients hold one; `k` others, whose clocks are a little
   ahead, have each purged the lease set and go no further.
   */
  ghost predicate HaveCrowdedIn(setup: Setup, s: System, m: nat, k: nat) {
    && s.clock == setup.leaseTtl - 1 && |s.clients| == 2 * m && k <= m
    && (forall t | t in s.leases :: s.leases[t] == setup.leaseTtl)
    && (forall w: nat | w < m ::
         s.clients[w] == if w < k then Holding(Token(w, 0), setup.leaseTtl) else Ready(Token(w, 0), 0))
    && (forall w: nat | m + k <= w < 2 * m :: s.clients[w] == Away(0))
  }

  /** Client `w` comes by, with a clock that is ahead, and finds all leases run out. */
  lemma PurgesAll(setup: Setup, n: nat, skew: nat, s: System, w: nat) returns (s': System)
    requires skew > 0 && CanBe(setup, n, skew, s) && s.clock == setup.leaseTtl - 1
    requires w < |s.clients| && s.clients[w] == Away(0) && forall t | t in s.leases :: s.leases[t] == setup.leaseTtl
    ensures CanBe(setup, n, skew, s') && s'.leases == map[] && s'.clock == s.clock
    ensures |s'.clients| == |s.clients| && forall v: nat | v < |s.clients| && v != w :: s'.clients[v] == s.clients[v]
  {
    s' := s;
    for i := 0 to 4
      invariant CanBe(setup, n, skew, s') && s'.clock == s.clock && |s'.clients| == |s.clients|
      invariant forall v: nat | v < |s.clients| && v != w :: s'.clients[v] == s.clients[v]
      invariant forall t | t in s'.leases :: s'.leases[t] == setup.leaseTtl
      invariant i == 0 ==> s'.clients[w] == Away(0)
      invariant i == 1 ==> s'.clients[w] == AtDoor(Token(w, 0))
      invariant i == 2 ==> s'.clients[w] == Ready(Token(w, 0), setup.leaseTtl)
      invariant i == 3 ==> s'.clients[w].Watched? && s'.clients[w].now == setup.leaseTtl
      invariant i == 4 ==> s'.leases == map[]
    {
      var e := if i == 0 then Knock(w, 0) else if i == 1 then Begin(w, setup.leaseTtl) else Proceed(w);
      GoesOn(setup, n, skew, s', e);
      s' := Step(setup, s', e);
    }
  }

  lemma OneMoreCrowdsIn(setup: Setup, m: nat, skew: nat, s: System, k: nat) returns (s': System)
    requires setup.maxConcurrent > 0 && setup.leaseTtl > 0 && skew > 0 && k < m
    requires CanBe(setup, 2 * m, skew, s) && HaveCrowdedIn(setup, s, m, k)
    ensures CanBe(setup, 2 * m, skew, s') && HaveCrowdedIn(setup, s', m, k + 1)
  {
    var b := PurgesAll(setup, 2 * m, skew, s, m + k);
    assert b.clients[k] == Ready(Token(k, 0), 0);
    s' := Run(setup, b, Retry(k));
    GoesOnToTheEnd(setup, 2 * m, skew, b, k);
    FourCommands(setup, b, k);
  }

  lemma {:induction false} SomeCrowdIn(setup: Setup, m: nat, skew: nat, k: nat) returns (s: System)
    requires setup.maxConcurrent > 0 && setup.leaseTtl > 0 && skew > 0 && k <= m
    ensures CanBe(setup, 2 * m, skew, s) && HaveCrowdedIn(setup, s, m, k)
  {
    if k == 0 {
      s := SomeHaveBegun(setup, 2 * m, skew, m);
      GoesOn(setup, 2 * m, skew, s, Tick(setup.leaseTtl - 1));
      s := Step(setup, s, Tick(setup.leaseTtl - 1));
    } else {
      s := SomeCrowdIn(setup, m, skew, k - 1);
      s := OneMoreCrowdsIn(setup, m, skew, s, k - 1);
    }
  }

  function FirstOnes(m: nat): (r: set<nat>)
    ensures |r| == m && forall w: nat :: w in r <==> w < m
  {
    if m == 0 then {} else FirstOnes(m - 1) + {m - 1}
  }

  /**
   With clocks apart by any amount the semaphore bounds nothing: however large its capacity, and however many clients
   are asked for, so many can hold a lease that has not run out at the same time.
   */
  lemma AnySkewLetsAnyNumberIn(setup: Setup, skew: nat, m: nat) returns (events: seq<Event>)
    requires setup.maxConcurrent > 0 && setup.leaseTtl > 0 && skew > 0
    ensures ClocksAgree(setup, 2 * m, events, skew) && ClocksWithin(setup, 2 * m, events, skew)
    ensures |Holders(Run(setup, Start(2 * m), events), 0)| >= m
  {
    var s := SomeCrowdIn(setup, m, skew, m);
    events :| ClocksAgree(setup, 2 * m, events, skew) && Run(setup, Start(2 * m), events) == s;
    assert FirstOnes(m) <= Holders(s, 0);
    SubsetIsNoLarger(FirstOnes(m), Holders(s, 0));
  }

  ghost predicate IsBounded(setup: Setup, skew: nat, bound: nat) {
    forall n: nat, events | ClocksWithin(setup, n, events, skew) :: |Holders(Run(setup, Start(n), events), 0)| <= bound
  }

  /** The semaphore keeps holders within its capacity, or within any bound at all, exactly if no clock is ahead. */
  lemma HoldersAreBoundedIff(setup: Setup, skew: nat, bound: nat)
    requires setup.maxConcurrent > 0 && setup.leaseTtl > 0 && bound >= setup.maxConcurrent
    ensures IsBounded(setup, skew, bound) <==> skew == 0
  {
    if skew == 0 {
      forall n: nat, events | ClocksWithin(setup, n, events, 0)
        ensures |Holders(Run(setup, Start(n), events), 0)| <= bound
      {
        HoldersNeverExceedCapacity(setup, n, events, 0);
      }
    } else {
      var events := AnySkewLetsAnyNumberIn(setup, skew, bound + 1);
      assert |Holders(Run(setup, Start(2 * (bound + 1)), events), 0)| > bound;
    }
  }

  // ------------------------------------------------------------------- how far apart grants are

  ghost predicate IsPast(s: System, w: nat) {
    w < |s.clients| && Past(s.clients[w]) == 1
  }

  /** Every client past the gate, and every grant, has a pass to itself, and an earlier one. */
  ghost predicate PassesAreUsedOnce(s: System) {
    && (forall w: nat | IsPast(s, w) :: w in s.entered && s.entered[w] < |s.passes|)
    && (forall v: nat, w: nat | IsPast(s, v) && IsPast(s, w) && v != w :: s.entered[v] != s.entered[w])
    && (forall i | 0 <= i < |s.grants| :: s.grants[i].pass.Some? && s.grants[i].pass.value < |s.passes|)
    && (forall i, k | 0 <= i < k < |s.grants| :: s.grants[i].pass != s.grants[k].pass)
    && (forall i, w: nat | 0 <= i < |s.grants| && IsPast(s, w) :: s.grants[i].pass.value != s.entered[w])
  }

  lemma KnockUsesANewPass(s: System, w: nat, delay: int)
    requires PassesAreUsedOnce(s) && w < |s.clients| && delay > 0
    ensures PassesAreUsedOnce(KnockStep(s, w, delay))
  {
    var s' := KnockStep(s, w, delay);
    if s' != s {
      assert forall v: nat | IsPast(s', v) && v != w :: IsPast(s, v) && s'.entered[v] == s.entered[v];
      assert s'.entered[w] == |s.passes|;
    }
  }

  lemma GrantUsesItsPass(s: System, s': System, w: nat)
    requires PassesAreUsedOnce(s) && IsPast(s, w) && s'.grants == s.grants + [GrantTo(s, w)]
    requires s'.passes == s.passes && s'.entered == s.entered
    requires forall v: nat | IsPast(s', v) :: IsPast(s, v) && v != w
    ensures PassesAreUsedOnce(s')
  {
  }

  lemma NothingNewIsUsed(s: System, s': System)
    requires PassesAreUsedOnce(s) && s'.grants == s.grants && s'.passes == s.passes && s'.entered == s.entered
    requires forall v: nat | IsPast(s', v) :: IsPast(s, v)
    ensures PassesAreUsedOnce(s')
  {
  }

  ghost predicate OnlyLeaves(s: System, s': System, w: nat) {
    && s'.passes == s.passes && s'.entered == s.entered && (IsPast(s', w) ==> IsPast(s, w))
    && (s'.grants == s.grants || (s'.grants == s.grants + [GrantTo(s, w)] && IsPast(s, w) && !IsPast(s', w)))
  }

  lemma ProceedOnlyLeaves(setup: Setup, s: System, w: nat)
    requires w < |s.clients|
    ensures OnlyLeaves(s, ProceedStep(setup, s, w), w)
  {
    match s.clients[w]
    case Counted(_, _, _, _) =>
    case Watched(_, _, _) =>
    case _ =>
  }

  /** Apart from a knock, nobody gets past the gate, and whoever gets a lease is past it no more. */
  lemma OnlyKnocksPass(setup: Setup, s: System, e: Event)
    requires !e.Knock? && !e.Tick? && e.client < |s.clients|
    ensures OnlyLeaves(s, Step(setup, s, e), e.client)
  {
    match e
    case Proceed(w) => ProceedOnlyLeaves(setup, s, w);
    case Release(w) =>
    case Begin(w, _) =>
    case Die(w) =>
  }

  lemma StepUsesPassesOnce(setup: Setup, s: System, e: Event)
    requires PassesAreUsedOnce(s) && (e.Knock? ==> e.delay > 0)
    ensures PassesAreUsedOnce(Step(setup, s, e))
  {
    var s' := Step(setup, s, e);
    if e.Tick? {
      NothingNewIsUsed(s, s');
    } else if e.client < |s.clients| {
      if e.Knock? {
        KnockUsesANewPass(s, e.client, e.delay);
      } else {
        OnlyKnocksPass(setup, s, e);
        OthersStand(setup, s, e);
        if s'.grants == s.grants { NothingNewIsUsed(s, s'); } else { GrantUsesItsPass(s, s', e.client); }
      }
    }
  }

  lemma {:induction false} EveryRunUsesPassesOnce(setup: Setup, n: nat, events: seq<Event>)
    requires forall e | e in events && e.Knock? :: e.delay > 0
    ensures PassesAreUsedOnce(Run(setup, Start(n), events))
  {
    if events != [] {
      EveryRunUsesPassesOnce(setup, n, events[..|events| - 1]);
      StepUsesPassesOnce(setup, Run(setup, Start(n), events[..|events| - 1]), events[|events| - 1]);
    }
  }

  lemma {:induction false} PassesApart(s: System, delay: nat, p: nat, q: nat)
    requires Spaced(s, delay) && p < q < |s.passes|
    ensures s.passes[q].at >= s.passes[p].at + delay
  {
    if p < q - 1 { PassesApart(s, delay, p, q - 1); }
  }

  /** Every lease came no later than `late` after the pass that it used up. */
  ghost predicate NoLaterThan(s: System, late: nat) {
    forall i | 0 <= i < |s.grants| && s.grants[i].pass.Some? && s.grants[i].pass.value < |s.passes| ::
      0 <= s.grants[i].at - s.passes[s.grants[i].pass.value].at <= late
  }

  /** Any two leases are at least so far apart. */
  ghost predicate GrantsApart(s: System, apart: int) {
    forall i, k | 0 <= i < |s.grants| && 0 <= k < |s.grants| && i != k ::
      s.grants[k].at - s.grants[i].at >= apart || s.grants[i].at - s.grants[k].at >= apart
  }

  ghost predicate DelaysAtLeast(events: seq<Event>, delay: nat) {
    forall e | e in events && e.Knock? :: e.delay >= delay
  }

  /** The gate spaces out requests up to the time that a client takes from the gate to its lease. */
  lemma GrantsAreSpaced(setup: Setup, n: nat, events: seq<Event>, delay: nat, late: nat)
    requires delay > 0 && DelaysAtLeast(events, delay) && NoLaterThan(Run(setup, Start(n), events), late)
    ensures GrantsApart(Run(setup, Start(n), events), delay - late)
  {
    var s := Run(setup, Start(n), events);
    EveryRunKeepsGate(setup, n, events, delay);
    EveryRunUsesPassesOnce(setup, n, events);
    forall i, k | 0 <= i < |s.grants| && 0 <= k < |s.grants| && i != k
      ensures s.grants[k].at - s.grants[i].at >= delay - late || s.grants[i].at - s.grants[k].at >= delay - late
    {
      var p, q := s.grants[i].pass.value, s.grants[k].pass.value;
      if p < q { PassesApart(s, delay, p, q); } else { PassesApart(s, delay, q, p); }
    }
  }

  lemma AttemptsDoNotKnock(w: nat, reading: int)
    ensures forall e | e in Attempt(w, reading) :: !e.Knock?
  {
  }

  lemma LateLease(setup: Setup, delay: nat, late: nat) returns (events: seq<Event>)
    requires setup.maxConcurrent > 0 && 0 < late <= delay
    ensures DelaysAtLeast(events, delay)
    ensures var s, token := Run(setup, Start(2), events), Token(0, 0);
            && s.clock == late && s.gateUntil == delay && s.leases == map[token := late + setup.leaseTtl]
            && s.passes == [Pass(0, delay)] && s.grants == [Grant(late, Some(0))] && s.entered == map[0 := 0]
            && s.clients == [Holding(token, late + setup.leaseTtl), Away(0)]
  {
    var z := Start(2);
    RunOne(setup, z, Knock(0, delay));
    Extend(setup, z, [Knock(0, delay)], Tick(late));
    var door := [Knock(0, delay)] + [Tick(late)];
    var s := Run(setup, z, door);
    assert s.clients == [AtDoor(Token(0, 0)), Away(0)] && s.leases == map[];
    RunAppends(setup, z, door, Attempt(0, late));
    AttemptAloneSucceedsIff(setup, s, 0, late);
    AttemptsDoNotKnock(0, late);
    events := door + Attempt(0, late);
  }

  /**
   The first client takes `late` to get its lease and gives it back at once; the second gets through after `delay`.
   */
  lemma FirstIsLate(setup: Setup, delay: nat, late: nat) returns (events: seq<Event>)
    requires setup.maxConcurrent > 0 && 0 < late <= delay
    ensures DelaysAtLeast(events, delay)
    ensures var s := Run(setup, Start(2), events);
            && s.clock == delay && s.leases == map[] && s.passes == [Pass(0, delay), Pass(delay, delay)]
            && s.grants == [Grant(late, Some(0))] && s.entered == map[0 := 0, 1 := 1]
            && s.clients == [Away(1), AtDoor(Token(1, 0))]
  {
    var held := LateLease(setup, delay, late);
    Extend(setup, Start(2), held, Release(0));
    Extend(setup, Start(2), held + [Release(0)], Tick(delay - late));
    events := held + [Release(0)] + [Tick(delay - late)];
    var s := Run(setup, Start(2), events);
    assert s.clock == delay && s.leases == map[] && s.clients == [Away(1), Away(0)];
    Extend(setup, Start(2), events, Knock(1, delay));
    events := events + [Knock(1, delay)];
  }

  /**
   The bound is reached: a client that is late by any amount, up to the delay, starts that much closer to the next.
   */
  lemma LatenessIsLost(setup: Setup, delay: nat, late: nat) returns (events: seq<Event>)
    requires setup.maxConcurrent > 0 && 0 < late <= delay
    ensures DelaysAtLeast(events, delay) && NoLaterThan(Run(setup, Start(2), events), late)
    ensures Run(setup, Start(2), events).grants == [Grant(late, Some(0)), Grant(delay, Some(1))]
  {
    var first := FirstIsLate(setup, delay, late);
    var s := Run(setup, Start(2), first);
    RunAppends(setup, Start(2), first, Attempt(1, delay));
    AttemptAloneSucceedsIff(setup, s, 1, delay);
    AttemptsDoNotKnock(1, delay);
    events := first + Attempt(1, delay);
  }

  /** At worst two requests start together. */
  lemma TwoGrantsAtOnce(setup: Setup, delay: nat) returns (events: seq<Event>)
    requires setup.maxConcurrent > 0 && delay > 0
    ensures DelaysAtLeast(events, delay)
    ensures var s := Run(setup, Start(2), events); |s.grants| == 2 && s.grants[0].at == delay && s.grants[1].at == delay
  {
    events := LatenessIsLost(setup, delay, delay);
  }

  ghost predicate SpacedWhenever(setup: Setup, delay: nat, late: nat) {
    forall n: nat, events | DelaysAtLeast(events, delay) && NoLaterThan(Run(setup, Start(n), events), late) ::
      GrantsApart(Run(setup, Start(n), events), delay)
  }

  /**
   At most one request starts per delay exactly if no client is ever late: the gate alone, which is meant to be the
   main defence, spaces out passes and not the requests that follow them.
   */
  lemma OneRequestPerDelayIff(setup: Setup, delay: nat, late: nat)
    requires setup.maxConcurrent > 0 && delay > 0
    ensures SpacedWhenever(setup, delay, late) <==> late == 0
  {
    if late == 0 {
      forall n: nat, events | DelaysAtLeast(events, delay) && NoLaterThan(Run(setup, Start(n), events), late)
        ensures GrantsApart(Run(setup, Start(n), events), delay)
      {
        GrantsAreSpaced(setup, n, events, delay, late);
      }
    } else {
      var events := LatenessIsLost(setup, delay, if late <= delay then late else delay);
      var s := Run(setup, Start(2), events);
      assert s.grants[1].at - s.grants[0].at < delay && NoLaterThan(s, late);
      assert !GrantsApart(s, delay);
    }
  }
}
