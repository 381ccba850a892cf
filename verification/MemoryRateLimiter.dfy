/**
 The in-process rate limiter (src/beacon_scale_infra/crawl/rate_limiter.py). Each pass through the waiting loop of
 `acquire` holds the lock, so passes and releases of concurrent tasks interleave as whole events.
 */
module MemoryRateLimiter {
  import opened Wrappers
  import opened Collections

  type Domain = string
  type Token = nat     // `uuid4`: tokens are drawn from a counter, so that no two are equal

  datatype Limits = Limits(maxConcurrent: nat, defaultDelay: nat, leaseTtl: nat)

  predicate Sensible(l: Limits) {
    l.maxConcurrent > 0 && l.leaseTtl > 0
  }

  datatype State = State(last: map<Domain, int>, leases: map<Domain, map<Token, int>>, issued: nat)

  function LeasesOf(s: State, domain: Domain): map<Token, int> {
    if domain in s.leases then s.leases[domain] else map[]
  }

  function Unexpired(active: map<Token, int>, now: int): map<Token, int> {
    map t | t in active && active[t] > now :: active[t]
  }

  predicate MayGo(l: Limits, s: State, domain: Domain, delay: nat, now: int) {
    && (domain in s.last ==> now - s.last[domain] >= delay)
    && |Unexpired(LeasesOf(s, domain), now)| < l.maxConcurrent
  }

  /** One pass through the loop of `acquire`. */
  function Passed(l: Limits, s: State, domain: Domain, delay: nat, now: int): State {
    var active := Unexpired(LeasesOf(s, domain), now);
    if MayGo(l, s, domain, delay, now) then
      State(s.last[domain := now], s.leases[domain := active[s.issued := now + l.leaseTtl]], s.issued + 1)
    else s.(leases := s.leases[domain := active])
  }

  function Released(s: State, domain: Domain, token: Token): State {
    if domain in s.leases then s.(leases := s.leases[domain := s.leases[domain] - {token}]) else s
  }

  // ----------------------------------------------------------------------------------------- events

  /** A pass through the loop of `acquire`, or a release, by any task. */
  datatype Event = Try(domain: Domain, delay: nat, at: int) | Free(domain: Domain, token: Token)

  datatype Grant = Grant(domain: Domain, at: int, delay: nat, token: Token)

  /** The limiter with its history: what it granted, and what was given back of the tokens that it had issued. */
  datatype System = System(state: State, clock: int, grants: seq<Grant>, freed: set<(Domain, Token)>)

  function Initially(): System {
    System(State(map[], map[], 0), 0, [], {})
  }

  function Step(l: Limits, s: System, e: Event): System {
    match e
    case Try(domain, delay, at) =>
      var s' := s.(state := Passed(l, s.state, domain, delay, at), clock := at);
      if MayGo(l, s.state, domain, delay, at) then s'.(grants := s.grants + [Grant(domain, at, delay, s.state.issued)])
      else s'
    case Free(domain, token) =>
      s.(state := Released(s.state, domain, token),
         freed := if token < s.state.issued then s.freed + {(domain, token)} else s.freed)
  }

  function Run(l: Limits, events: seq<Event>): System {
    if events == [] then Initially() else Step(l, Run(l, events[..|events| - 1]), events[|events| - 1])
  }

  lemma OneMoreEvent(l: Limits, events: seq<Event>, e: Event)
    ensures Run(l, events + [e]) == Step(l, Run(l, events), e)
  {
    assert (events + [e])[..|events|] == events;
  }

  /** A task tries at the first `k` readings; `others[i]` is what other tasks do before its reading `i`. */
  function Among(domain: Domain, delay: nat, readings: seq<int>, others: seq<seq<Event>>, k: nat): seq<Event>
    requires k <= |readings| == |others|
  {
    if k == 0 then []
    else Among(domain, delay, readings, others, k - 1) + others[k - 1] + [Try(domain, delay, readings[k - 1])]
  }

  /** When it reads the clock for the time `i`, enough time has passed and a lease is free. */
  predicate MayGoAt(l: Limits, events: seq<Event>, domain: Domain, delay: nat, readings: seq<int>,
                    others: seq<seq<Event>>, i: nat)
    requires i < |readings| == |others|
  {
    var before := events + Among(domain, delay, readings, others, i) + others[i];
    MayGo(l, Run(l, before).state, domain, delay, readings[i])
  }

  /** It has tried `k` times: without success so far, or the last time with success. */
  ghost predicate HasTried(l: Limits, events: seq<Event>, domain: Domain, delay: nat, readings: seq<int>,
                           others: seq<seq<Event>>, k: nat, granted: bool)
    requires k <= |readings| == |others|
  {
    && (granted ==> k > 0)
    && forall i | 0 <= i < k :: MayGoAt(l, events, domain, delay, readings, others, i) <==> granted && i == k - 1
  }

  lemma TriesOnceMore(l: Limits, events: seq<Event>, domain: Domain, delay: nat, readings: seq<int>,
                      others: seq<seq<Event>>, i: nat)
    requires i < |readings| == |others| && HasTried(l, events, domain, delay, readings, others, i, false)
    ensures events + Among(domain, delay, readings, others, i) + others[i] + [Try(domain, delay, readings[i])]
            == events + Among(domain, delay, readings, others, i + 1)
    ensures HasTried(l, events, domain, delay, readings, others, i + 1,
                     MayGoAt(l, events, domain, delay, readings, others, i))
  {
  }

  class InMemoryCoordinatedRateLimiter {
    const limits: Limits
    var lastRequest: map<Domain, int>
    var activeLeases: map<Domain, map<Token, int>>
    var issued: nat
    ghost var events: seq<Event>        // so far

    constructor (limits: Limits)
      requires Sensible(limits)
      ensures this.limits == limits && events == [] && Valid()
    {
      this.limits, lastRequest, activeLeases, issued, events := limits, map[], map[], 0, [];
    }

    ghost predicate Valid()
      reads this
    {
      Now() == Run(limits, events).state
    }

    ghost function Now(): State
      reads this
    {
      State(lastRequest, activeLeases, issued)
    }

    method ExpireStaleLeases(active: map<Token, int>, now: int) returns (left: map<Token, int>)
      ensures left == Unexpired(active, now)
    {
      var expired := set t | t in active && active[t] <= now;
      left := active;
      var todo := expired;
      while todo != {}
        invariant todo <= expired
        invariant left == active - (expired - todo)
      {
        var t :| t in todo;
        left := left - {t};
        todo := todo - {t};
      }
    }

    /** The locked section of `acquire`, with the monotonic clock at `now`; without a token the task sleeps. */
    method TryAcquire(domain: Domain, delay: nat, now: int) returns (token: Option<Token>)
      requires Valid()
      modifies this
      ensures Valid() && events == old(events) + [Try(domain, delay, now)]
      ensures Now() == Passed(limits, old(Now()), domain, delay, now)
      ensures token == if MayGo(limits, old(Now()), domain, delay, now) then Some(old(issued)) else None
    {
      OneMoreEvent(limits, events, Try(domain, delay, now));
      events := events + [Try(domain, delay, now)];
      var delayElapsed := domain !in lastRequest || now - lastRequest[domain] >= delay;
      var active: map<Token, int> := if domain in activeLeases then activeLeases[domain] else map[];
      active := ExpireStaleLeases(active, now);
      if delayElapsed && |active| < limits.maxConcurrent {
        token := Some(issued);
        lastRequest := lastRequest[domain := now];
        activeLeases := activeLeases[domain := active[issued := now + limits.leaseTtl]];
        issued := issued + 1;
      } else {
        token := None;
        activeLeases := activeLeases[domain := active];
      }
    }

    method OtherTasks(es: seq<Event>)
      requires Valid()
      modifies this
      ensures Valid() && events == old(events) + es
    {
      for i := 0 to |es|
        invariant Valid() && events == old(events) + es[..i]
      {
        match es[i]
        case Try(domain, delay, at) => var _ := TryAcquire(domain, delay, at);
        case Free(domain, token) => Release(domain, token);
        PrefixMore(es, i);
      }
    }

    /**
     Wakes up at each of `readings` until it is let through, which is at the first of them at which it may go; in
     between other tasks do whatever they like.
     */
    method Acquire(domain: Domain, minDelay: Option<int>, readings: seq<int>, others: seq<seq<Event>>)
        returns (r: Result<Option<Token>>, ghost k: nat)
      requires Valid() && |others| == |readings|
      modifies this
      ensures Valid() && k <= |readings|
      ensures r.Failure? <==> minDelay.Some? && minDelay.value < 0
      ensures r.Failure? ==> Now() == old(Now()) && events == old(events)
      ensures r.Success? ==>
                var delay: nat := if minDelay.Some? then minDelay.value else limits.defaultDelay;
                && events == old(events) + Among(domain, delay, readings, others, k)
                && HasTried(limits, old(events), domain, delay, readings, others, k, r.value.Some?)
                && (r.value.None? ==> k == |readings|)
                && (r.value.Some? ==> issued == r.value.value + 1)
    {
      k := 0;
      if minDelay.Some? && minDelay.value < 0 { return Failure("min_delay_seconds is negative"), k; }
      var delay := Delay(limits, minDelay);
      var token := None;
      var i := 0;
      while i < |readings| && token.None?
        invariant 0 <= i <= |readings| && k == i && Valid()
        invariant events == old(events) + Among(domain, delay, readings, others, i)
        invariant HasTried(limits, old(events), domain, delay, readings, others, i, token.Some?)
        invariant token.Some? ==> issued == token.value + 1
      {
        TriesOnceMore(limits, old(events), domain, delay, readings, others, i);
        OtherTasks(others[i]);
        token := TryAcquire(domain, delay, readings[i]);
        i, k := i + 1, k + 1;
      }
      return Success(token), k;
    }

    method Release(domain: Domain, token: Token)
      requires Valid()
      modifies this
      ensures Valid() && events == old(events) + [Free(domain, token)]
      ensures Now() == Released(old(Now()), domain, token)
    {
      OneMoreEvent(limits, events, Free(domain, token));
      events := events + [Free(domain, token)];
      if domain in activeLeases {
        activeLeases := activeLeases[domain := activeLeases[domain] - {token}];
      }
    }
  }

  function Delay(l: Limits, minDelay: Option<int>): nat {
    if minDelay.Some? && minDelay.value >= 0 then minDelay.value else l.defaultDelay
  }

  /** Wakes up at each reading in turn, until one lets it through. */
  function Waited(l: Limits, s: State, domain: Domain, delay: nat, readings: seq<int>): State
    decreases |readings|
  {
    if readings == [] then s
    else if MayGo(l, s, domain, delay, readings[0]) then Passed(l, s, domain, delay, readings[0])
    else Waited(l, Passed(l, s, domain, delay, readings[0]), domain, delay, readings[1..])
  }

  /** After `i` tries. */
  function StateAt(l: Limits, events: seq<Event>, domain: Domain, delay: nat, readings: seq<int>,
                   others: seq<seq<Event>>, i: nat): State
    requires i <= |readings| == |others|
  {
    Run(l, events + Among(domain, delay, readings, others, i)).state
  }

  lemma BeforeAnyTry(l: Limits, events: seq<Event>, domain: Domain, delay: nat, readings: seq<int>,
                     others: seq<seq<Event>>)
    requires |readings| == |others|
    ensures StateAt(l, events, domain, delay, readings, others, 0) == Run(l, events).state
  {
    assert events + [] == events;
  }

  lemma AfterATry(l: Limits, events: seq<Event>, domain: Domain, delay: nat, readings: seq<int>,
                  others: seq<seq<Event>>, i: nat)
    requires i < |readings| == |others| && others[i] == []
    ensures var s := StateAt(l, events, domain, delay, readings, others, i);
            && StateAt(l, events, domain, delay, readings, others, i + 1) == Passed(l, s, domain, delay, readings[i])
            && (MayGoAt(l, events, domain, delay, readings, others, i) <==> MayGo(l, s, domain, delay, readings[i]))
  {
    var before, e := events + Among(domain, delay, readings, others, i), Try(domain, delay, readings[i]);
    assert before + others[i] == before;
    assert events + Among(domain, delay, readings, others, i + 1) == before + [e];
    OneMoreEvent(l, before, e);
  }

  lemma WaitsOnce(l: Limits, s: State, domain: Domain, delay: nat, readings: seq<int>, i: nat)
    requires i < |readings|
    ensures Waited(l, s, domain, delay, readings[i..])
            == if MayGo(l, s, domain, delay, readings[i]) then Passed(l, s, domain, delay, readings[i])
               else Waited(l, Passed(l, s, domain, delay, readings[i]), domain, delay, readings[i + 1..])
  {
    assert readings[i..][1..] == readings[i + 1..];
  }

  ghost predicate AllAlone(others: seq<seq<Event>>) {
    forall i | 0 <= i < |others| :: others[i] == []
  }

  /** As long as it is refused, what is left to wait for stays the same. */
  ghost predicate StillWaits(l: Limits, events: seq<Event>, domain: Domain, delay: nat, readings: seq<int>,
                             others: seq<seq<Event>>, i: nat)
    requires i <= |readings| == |others|
  {
    Waited(l, StateAt(l, events, domain, delay, readings, others, i), domain, delay, readings[i..])
    == Waited(l, Run(l, events).state, domain, delay, readings)
  }

  lemma WaitsOneMore(l: Limits, events: seq<Event>, domain: Domain, delay: nat, readings: seq<int>,
                     others: seq<seq<Event>>, i: nat)
    requires i < |readings| == |others| && AllAlone(others) && !MayGoAt(l, events, domain, delay, readings, others, i)
    requires StillWaits(l, events, domain, delay, readings, others, i)
    ensures StillWaits(l, events, domain, delay, readings, others, i + 1)
  {
    AfterATry(l, events, domain, delay, readings, others, i);
    WaitsOnce(l, StateAt(l, events, domain, delay, readings, others, i), domain, delay, readings, i);
  }

  lemma {:induction false} WaitsOn(l: Limits, events: seq<Event>, domain: Domain, delay: nat, readings: seq<int>,
                                   others: seq<seq<Event>>, i: nat)
    requires i <= |readings| == |others| && AllAlone(others)
    requires forall a | 0 <= a < i :: !MayGoAt(l, events, domain, delay, readings, others, a)
    ensures StillWaits(l, events, domain, delay, readings, others, i)
  {
    if i == 0 {
      BeforeAnyTry(l, events, domain, delay, readings, others);
      assert readings[0..] == readings;
    } else {
      WaitsOn(l, events, domain, delay, readings, others, i - 1);
      WaitsOneMore(l, events, domain, delay, readings, others, i - 1);
    }
  }

  lemma GoesAtLast(l: Limits, events: seq<Event>, domain: Domain, delay: nat, readings: seq<int>,
                   others: seq<seq<Event>>, i: nat)
    requires i < |readings| == |others| && AllAlone(others) && MayGoAt(l, events, domain, delay, readings, others, i)
    ensures var s := StateAt(l, events, domain, delay, readings, others, i);
            StateAt(l, events, domain, delay, readings, others, i + 1) == Waited(l, s, domain, delay, readings[i..])
  {
    AfterATry(l, events, domain, delay, readings, others, i);
    WaitsOnce(l, StateAt(l, events, domain, delay, readings, others, i), domain, delay, readings, i);
  }

  lemma WaitsAndGoes(l: Limits, events: seq<Event>, domain: Domain, delay: nat, readings: seq<int>,
                     others: seq<seq<Event>>, i: nat)
    requires i < |readings| == |others| && AllAlone(others) && MayGoAt(l, events, domain, delay, readings, others, i)
    requires forall a | 0 <= a < i :: !MayGoAt(l, events, domain, delay, readings, others, a)
    ensures StateAt(l, events, domain, delay, readings, others, i + 1)
            == Waited(l, Run(l, events).state, domain, delay, readings)
  {
    WaitsOn(l, events, domain, delay, readings, others, i);
    GoesAtLast(l, events, domain, delay, readings, others, i);
  }

  /** If nobody disturbs it, that is what its passes come to. */
  lemma AloneIsWaited(l: Limits, events: seq<Event>, domain: Domain, delay: nat, readings: seq<int>,
                      others: seq<seq<Event>>, k: nat, granted: bool)
    requires k <= |readings| == |others| && AllAlone(others)
    requires HasTried(l, events, domain, delay, readings, others, k, granted) && (granted || k == |readings|)
    ensures StateAt(l, events, domain, delay, readings, others, k)
            == Waited(l, Run(l, events).state, domain, delay, readings)
  {
    if granted {
      WaitsAndGoes(l, events, domain, delay, readings, others, k - 1);
    } else {
      WaitsOn(l, events, domain, delay, readings, others, k);
    }
  }

  // ---------------------------------------------------------------------------------- any run of the tasks

  /** The monotonic clock never goes back. */
  ghost predicate Monotone(l: Limits, events: seq<Event>) {
    forall i | 0 <= i < |events| && events[i].Try? :: events[i].at >= Run(l, events[..i]).clock
  }

  /** A grant that has neither run out nor been given back. */
  predicate Live(l: Limits, s: System, g: Grant) {
    g.at + l.leaseTtl > s.clock && (g.domain, g.token) !in s.freed
  }

  ghost predicate GrantsAreSpaced(s: System) {
    forall i, k | 0 <= i < k < |s.grants| && s.grants[i].domain == s.grants[k].domain ::
      s.grants[k].at >= s.grants[i].at + s.grants[k].delay
  }

  /** The last request of a domain is its latest grant. */
  ghost predicate LastIsLatest(s: System) {
    forall i | 0 <= i < |s.grants| :: var g := s.grants[i]; g.domain in s.state.last && g.at <= s.state.last[g.domain]
  }

  ghost predicate TokensAreFresh(s: System) {
    && (forall i | 0 <= i < |s.grants| :: s.grants[i].token < s.state.issued)
    && (forall i, k | 0 <= i < k < |s.grants| :: s.grants[i].token != s.grants[k].token)
  }

  /** Live grants keep their lease. */
  ghost predicate LiveIsListed(l: Limits, s: System) {
    forall i | 0 <= i < |s.grants| && Live(l, s, s.grants[i]) ::
      var g := s.grants[i];
      g.token in LeasesOf(s.state, g.domain) && LeasesOf(s.state, g.domain)[g.token] == g.at + l.leaseTtl
  }

  ghost predicate WithinCapacity(l: Limits, s: System) {
    forall d | d in s.state.leases :: |s.state.leases[d]| <= l.maxConcurrent
  }

  ghost predicate Inv(l: Limits, s: System) {
    GrantsAreSpaced(s) && LastIsLatest(s) && TokensAreFresh(s) && LiveIsListed(l, s) && WithinCapacity(l, s)
  }

  lemma TryKeepsInv(l: Limits, s: System, e: Event)
    requires Sensible(l) && Inv(l, s) && e.Try? && e.at >= s.clock
    ensures Inv(l, Step(l, s, e))
  {
    var s' := Step(l, s, e);
    var active := Unexpired(LeasesOf(s.state, e.domain), e.at);
    SubsetIsNoLarger(active.Keys, LeasesOf(s.state, e.domain).Keys);
    forall i | 0 <= i < |s'.grants| && Live(l, s', s'.grants[i])
      ensures var g := s'.grants[i];
              g.token in LeasesOf(s'.state, g.domain) && LeasesOf(s'.state, g.domain)[g.token] == g.at + l.leaseTtl
    {
      if i < |s.grants| { assert Live(l, s, s.grants[i]); }
    }
  }

  lemma FreeKeepsInv(l: Limits, s: System, e: Event)
    requires Inv(l, s) && e.Free?
    ensures Inv(l, Step(l, s, e))
  {
    var s' := Step(l, s, e);
    if e.domain in s.state.leases {
      SubsetIsNoLarger((s.state.leases[e.domain] - {e.token}).Keys, s.state.leases[e.domain].Keys);
    }
    forall i | 0 <= i < |s'.grants| && Live(l, s', s'.grants[i])
      ensures var g := s'.grants[i];
              g.token in LeasesOf(s'.state, g.domain) && LeasesOf(s'.state, g.domain)[g.token] == g.at + l.leaseTtl
    {
      var g := s.grants[i];
      assert Live(l, s, g);
      ReleaseFreesOnlyItsOwn(s.state, e.domain, e.token, g.domain);
    }
  }

  lemma {:induction false} EveryRunIsGood(l: Limits, events: seq<Event>)
    requires Sensible(l) && Monotone(l, events)
    ensures Inv(l, Run(l, events))
  {
    if events != [] {
      var init, e := events[..|events| - 1], events[|events| - 1];
      assert forall i | 0 <= i < |init| :: init[..i] == events[..i] && init[i] == events[i];
      EveryRunIsGood(l, init);
      if e.Try? { TryKeepsInv(l, Run(l, init), e); } else { FreeKeepsInv(l, Run(l, init), e); }
    }
  }

  /** Each grant comes at least the delay it asked for after every earlier grant of its domain. */
  lemma GrantsKeepTheirDelay(l: Limits, events: seq<Event>, i: nat, k: nat)
    requires Sensible(l) && Monotone(l, events) && i < k < |Run(l, events).grants|
    requires Run(l, events).grants[i].domain == Run(l, events).grants[k].domain
    ensures Run(l, events).grants[k].at - Run(l, events).grants[i].at >= Run(l, events).grants[k].delay
  {
    EveryRunIsGood(l, events);
  }

  ghost function LiveGrants(l: Limits, s: System, domain: Domain): set<nat> {
    set i: nat | i < |s.grants| && s.grants[i].domain == domain && Live(l, s, s.grants[i])
  }

  lemma {:induction false} OneLeaseEach(l: Limits, s: System, domain: Domain, some: set<nat>, leases: map<Token, int>)
    requires TokensAreFresh(s) && some <= LiveGrants(l, s, domain)
    requires forall i | i in some :: s.grants[i].token in leases
    ensures |some| <= |leases|
  {
    if some != {} {
      var i :| i in some;
      var token := s.grants[i].token;
      OneLeaseEach(l, s, domain, some - {i}, leases - {token});
      assert (leases - {token}).Keys == leases.Keys - {token};
    }
  }

  /** Of the grants for a domain that have neither run out nor been given back, there are never too many. */
  lemma LiveGrantsNeverExceedCapacity(l: Limits, events: seq<Event>, domain: Domain)
    requires Sensible(l) && Monotone(l, events)
    ensures |LiveGrants(l, Run(l, events), domain)| <= l.maxConcurrent
  {
    var s := Run(l, events);
    EveryRunIsGood(l, events);
    OneLeaseEach(l, s, domain, LiveGrants(l, s, domain), LeasesOf(s.state, domain));
  }

  // ------------------------------------------------------------------------- nothing is refused without a reason

  /** This grant is the lease that is listed. */
  ghost predicate IsLeaseOf(l: Limits, s: System, domain: Domain, token: Token, i: nat) {
    && i < |s.grants| && s.grants[i].domain == domain && s.grants[i].token == token
    && domain in s.state.leases && token in s.state.leases[domain]
    && s.state.leases[domain][token] == s.grants[i].at + l.leaseTtl && (domain, token) !in s.freed
  }

  ghost predicate IsLast(s: System, domain: Domain, i: nat) {
    && i < |s.grants| && s.grants[i].domain == domain
    && domain in s.state.last && s.grants[i].at == s.state.last[domain]
  }

  /** Every lease is a grant that has not been given back, and the last request of a domain is one of its grants. */
  ghost predicate AllFromGrants(l: Limits, s: System) {
    && (forall d, t | d in s.state.leases && t in s.state.leases[d] :: exists i: nat :: IsLeaseOf(l, s, d, t, i))
    && (forall d | d in s.state.last :: exists i: nat :: IsLast(s, d, i))
    && (forall f | f in s.freed :: f.1 < s.state.issued)
  }

  lemma LeaseAfterStep(l: Limits, s: System, e: Event, d: Domain, t: Token)
    requires AllFromGrants(l, s)
    requires var s' := Step(l, s, e); d in s'.state.leases && t in s'.state.leases[d]
    ensures exists i: nat :: IsLeaseOf(l, Step(l, s, e), d, t, i)
  {
    var s' := Step(l, s, e);
    if e.Try? && MayGo(l, s.state, e.domain, e.delay, e.at) && d == e.domain && t == s.state.issued {
      assert IsLeaseOf(l, s', d, t, |s.grants|);
    } else {
      assert d in s.state.leases && t in s.state.leases[d];
      var i: nat :| IsLeaseOf(l, s, d, t, i);
      assert IsLeaseOf(l, s', d, t, i);
    }
  }

  lemma LastAfterStep(l: Limits, s: System, e: Event, d: Domain)
    requires AllFromGrants(l, s) && d in Step(l, s, e).state.last
    ensures exists i: nat :: IsLast(Step(l, s, e), d, i)
  {
    var s' := Step(l, s, e);
    if d in s.state.last && s'.state.last[d] == s.state.last[d] {
      var i: nat :| IsLast(s, d, i);
      assert IsLast(s', d, i);
    } else {
      assert IsLast(s', d, |s.grants|);
    }
  }

  lemma {:induction false} EverythingIsFromGrants(l: Limits, events: seq<Event>)
    ensures AllFromGrants(l, Run(l, events))
  {
    if events != [] {
      var init, e := events[..|events| - 1], events[|events| - 1];
      EverythingIsFromGrants(l, init);
      var s := Run(l, init);
      forall d, t | d in Step(l, s, e).state.leases && t in Step(l, s, e).state.leases[d]
        ensures exists i: nat :: IsLeaseOf(l, Step(l, s, e), d, t, i)
      {
        LeaseAfterStep(l, s, e, d, t);
      }
      forall d | d in Step(l, s, e).state.last ensures exists i: nat :: IsLast(Step(l, s, e), d, i) {
        LastAfterStep(l, s, e, d);
      }
    }
  }

  lemma {:induction false} OneGrantEach(s: System, leases: map<Token, int>, some: set<nat>)
    requires forall i | i in some :: i < |s.grants|
    requires forall t | t in leases :: exists i :: i in some && s.grants[i].token == t
    ensures |leases| <= |some|
  {
    if leases != map[] {
      var t :| t in leases;
      var i :| i in some && s.grants[i].token == t;
      forall u | u in leases - {t} ensures exists k :: k in some - {i} && s.grants[k].token == u {
        var k :| k in some && s.grants[k].token == u;
        assert k in some - {i};
      }
      OneGrantEach(s, leases - {t}, some - {i});
    }
  }

  lemma LiveIsUnexpired(l: Limits, s: System, domain: Domain, at: int, i: nat)
    requires LiveIsListed(l, s) && at >= s.clock && i in LiveGrants(l, s.(clock := at), domain)
    ensures s.grants[i].token in Unexpired(LeasesOf(s.state, domain), at)
  {
    assert Live(l, s, s.grants[i]);
  }

  lemma UnexpiredIsLive(l: Limits, s: System, domain: Domain, at: int, t: Token)
    requires AllFromGrants(l, s) && t in Unexpired(LeasesOf(s.state, domain), at)
    ensures exists i :: i in LiveGrants(l, s.(clock := at), domain) && s.grants[i].token == t
  {
    var i: nat :| IsLeaseOf(l, s, domain, t, i);
    assert i in LiveGrants(l, s.(clock := at), domain);
  }

  lemma AsManyLeasesAsLiveGrants(l: Limits, s: System, domain: Domain, at: int)
    requires TokensAreFresh(s) && LiveIsListed(l, s) && AllFromGrants(l, s) && at >= s.clock
    ensures |Unexpired(LeasesOf(s.state, domain), at)| == |LiveGrants(l, s.(clock := at), domain)|
  {
    var now := s.(clock := at);
    var active, live := Unexpired(LeasesOf(s.state, domain), at), LiveGrants(l, now, domain);
    forall i | i in live ensures now.grants[i].token in active { LiveIsUnexpired(l, s, domain, at, i); }
    OneLeaseEach(l, now, domain, live, active);
    forall t | t in active ensures exists i :: i in live && now.grants[i].token == t {
      UnexpiredIsLive(l, s, domain, at, t);
    }
    OneGrantEach(now, active, live);
  }

  /** The delay has passed since every earlier grant of the domain. */
  ghost predicate DelayHasPassed(s: System, domain: Domain, delay: nat, at: int) {
    forall i | 0 <= i < |s.grants| && s.grants[i].domain == domain :: at - s.grants[i].at >= delay
  }

  lemma LastDecidesTheDelay(l: Limits, s: System, domain: Domain, delay: nat, at: int)
    requires LastIsLatest(s) && AllFromGrants(l, s)
    ensures (domain in s.state.last ==> at - s.state.last[domain] >= delay) <==> DelayHasPassed(s, domain, delay, at)
  {
    if domain in s.state.last {
      var i: nat :| IsLast(s, domain, i);
      assert s.grants[i].domain == domain;
    }
  }

  /**
   In any run a task is let through exactly if its delay has passed since every earlier grant of the domain, and
   fewer of them than allowed have neither run out nor been given back.
   */
  lemma GrantedIff(l: Limits, events: seq<Event>, domain: Domain, delay: nat, at: int)
    requires Sensible(l) && Monotone(l, events) && at >= Run(l, events).clock
    ensures var s := Run(l, events);
            MayGo(l, s.state, domain, delay, at)
            <==> DelayHasPassed(s, domain, delay, at) && |LiveGrants(l, s.(clock := at), domain)| < l.maxConcurrent
  {
    var s := Run(l, events);
    EveryRunIsGood(l, events);
    EverythingIsFromGrants(l, events);
    AsManyLeasesAsLiveGrants(l, s, domain, at);
    LastDecidesTheDelay(l, s, domain, delay, at);
  }

  /** A token that is unknown, has run out or belongs elsewhere frees nothing; any other frees its own lease only. */
  lemma ReleaseFreesOnlyItsOwn(s: State, domain: Domain, token: Token, d: Domain)
    ensures LeasesOf(Released(s, domain, token), d)
            == if d == domain then LeasesOf(s, d) - {token} else LeasesOf(s, d)
    ensures token !in LeasesOf(s, domain) ==> Released(s, domain, token) == s
  {
    if domain in s.leases && token !in s.leases[domain] {
      assert s.leases[domain] - {token} == s.leases[domain];
      assert s.leases[domain := s.leases[domain]] == s.leases;
    }
  }

  /** Waiting for one domain changes nothing for another. */
  lemma {:induction false} DomainsDoNotInterfere(l: Limits, s: State, domain: Domain, delay: nat, readings: seq<int>,
                                                 d: Domain)
    requires d != domain
    ensures var s' := Waited(l, s, domain, delay, readings);
            && LeasesOf(s', d) == LeasesOf(s, d) && (d in s'.last <==> d in s.last)
            && (d in s.last ==> s'.last[d] == s.last[d])
    decreases |readings|
  {
    if readings != [] && !MayGo(l, s, domain, delay, readings[0]) {
      DomainsDoNotInterfere(l, Passed(l, s, domain, delay, readings[0]), domain, delay, readings[1..], d);
    }
  }

  lemma RefusalChangesNothing(l: Limits, s: State, domain: Domain, delay: nat, first: int, now: int)
    requires !MayGo(l, s, domain, delay, first) && now >= first
    ensures var s' := Passed(l, s, domain, delay, first);
            && (MayGo(l, s', domain, delay, now) <==> MayGo(l, s, domain, delay, now))
            && Passed(l, s', domain, delay, now) == Passed(l, s, domain, delay, now)
  {
    var s' := Passed(l, s, domain, delay, first);
    assert Unexpired(LeasesOf(s', domain), now) == Unexpired(LeasesOf(s, domain), now);
    assert s'.leases[domain := Unexpired(LeasesOf(s, domain), now)]
        == s.leases[domain := Unexpired(LeasesOf(s, domain), now)];
  }

  /**
   A task that nobody disturbs is let through as soon as it may: at the first reading by which the delay has passed
   and enough of the leases it found have run out.
   */
  lemma {:induction false} WaitsNoLongerThanNeeded(l: Limits, s: State, domain: Domain, delay: nat, readings: seq<int>,
                                                   i: nat)
    requires i < |readings| && (forall a, b | 0 <= a <= b < |readings| :: readings[a] <= readings[b])
    requires MayGo(l, s, domain, delay, readings[i])
    requires forall a | 0 <= a < i :: !MayGo(l, s, domain, delay, readings[a])
    ensures Waited(l, s, domain, delay, readings) == Passed(l, s, domain, delay, readings[i])
    decreases |readings|
  {
    if i > 0 {
      var s' := Passed(l, s, domain, delay, readings[0]);
      forall a | 0 <= a <= i
        ensures MayGo(l, s', domain, delay, readings[a]) <==> MayGo(l, s, domain, delay, readings[a])
        ensures Passed(l, s', domain, delay, readings[a]) == Passed(l, s, domain, delay, readings[a])
      {
        RefusalChangesNothing(l, s, domain, delay, readings[0], readings[a]);
      }
      WaitsNoLongerThanNeeded(l, s', domain, delay, readings[1..], i - 1);
    }
  }
}
