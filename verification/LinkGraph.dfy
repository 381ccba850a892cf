/**
 The link graph, read from crawled pages by concurrent tasks that share one iterator over the keys
 (src/beacon_scale_infra/pagerank/link_graph_materializer.py). A task gives way only while it waits for a page, so
 taking a key is one step, and handling the page that has come is another.
 */
module LinkGraph {
  import opened Collections

  /** What reading a page comes to; a page that fails to load counts as malformed. */
  datatype Page = Missing | Unusable | Parsed(url: string, outlinks: seq<string>)

  datatype Line = Line(url: string, outlinks: seq<string>)

  datatype Task = Ready | Reading(key: string) | Ended

  datatype Stats = Stats(materialized: nat, missing: nat, malformed: nat)

  /** `finished` lists the keys in the order in which their pages were handled. */
  datatype State = State(next: nat, tasks: seq<Task>, file: seq<Line>, stats: Stats, finished: seq<string>)

  type Storage = string -> Page

  function LineOf(page: Page): seq<Line> {
    if page.Parsed? then [Line(page.url, page.outlinks)] else []
  }

  function Counted(stats: Stats, page: Page): Stats {
    match page
    case Missing => stats.(missing := stats.missing + 1)
    case Unusable => stats.(malformed := stats.malformed + 1)
    case Parsed(_, _) => stats.(materialized := stats.materialized + 1)
  }

  /** What reading these keys one after the other writes and counts. */
  function Lines(storage: Storage, keys: seq<string>): seq<Line> {
    if keys == [] then [] else Lines(storage, keys[..|keys| - 1]) + LineOf(storage(keys[|keys| - 1]))
  }

  function StatsFor(storage: Storage, keys: seq<string>): Stats {
    if keys == [] then Stats(0, 0, 0) else Counted(StatsFor(storage, keys[..|keys| - 1]), storage(keys[|keys| - 1]))
  }

  predicate Active(s: State, w: nat) {
    w < |s.tasks| && s.tasks[w] != Ended
  }

  predicate AllEnded(s: State) {
    forall w | 0 <= w < |s.tasks| :: s.tasks[w] == Ended
  }

  function Start(tasks: nat): State {
    State(0, seq(tasks, _ => Ready), [], Stats(0, 0, 0), [])
  }

  /** The next step of task `w`. */
  function Step(storage: Storage, keys: seq<string>, s: State, w: nat): State
    requires Active(s, w)
  {
    match s.tasks[w]
    case Ready =>
      if s.next < |keys| then s.(tasks := s.tasks[w := Reading(keys[s.next])], next := s.next + 1)
      else s.(tasks := s.tasks[w := Ended])
    case Reading(key) =>
      var page := storage(key);
      State(s.next, s.tasks[w := Ready], s.file + LineOf(page), Counted(s.stats, page), s.finished + [key])
    case Ended => s
  }

  // ---------------------------------------------------------------------------- what every step keeps

  function InHand(tasks: seq<Task>): multiset<string> {
    if tasks == [] then multiset{}
    else InHand(tasks[..|tasks| - 1]) + KeyIn(tasks[|tasks| - 1])
  }

  function KeyIn(t: Task): multiset<string> {
    if t.Reading? then multiset{t.key} else multiset{}
  }

  lemma {:induction false} InHandAfterUpdate(tasks: seq<Task>, w: nat, t: Task)
    requires w < |tasks|
    ensures InHand(tasks[w := t]) + KeyIn(tasks[w]) == InHand(tasks) + KeyIn(t)
  {
    var n := |tasks| - 1;
    if w == n {
      assert tasks[w := t][..n] == tasks[..n];
      Commute(InHand(tasks[..n]), KeyIn(t), KeyIn(tasks[n]));
    } else {
      assert tasks[w := t][..n] == tasks[..n][w := t] && tasks[w := t][n] == tasks[n];
      InHandAfterUpdate(tasks[..n], w, t);
      OneMoreHand(InHand(tasks[..n]), InHand(tasks[..n][w := t]), KeyIn(tasks[n]), KeyIn(tasks[w]), KeyIn(t));
    }
  }

  lemma Commute<T>(a: multiset<T>, b: multiset<T>, c: multiset<T>)
    ensures a + b + c == a + c + b
  {
  }

  lemma OneMoreHand<T>(a: multiset<T>, b: multiset<T>, last: multiset<T>, old1: multiset<T>, new1: multiset<T>)
    requires b + old1 == a + new1
    ensures b + last + old1 == a + last + new1
  {
    Commute(b, last, old1);
    Commute(a, last, new1);
  }

  lemma TakeOne<T>(handled: multiset<T>, hand: multiset<T>, hand': multiset<T>, taken: multiset<T>, key: multiset<T>)
    requires handled + hand == taken && hand' + multiset{} == hand + key
    ensures handled + hand' == taken + key
  {
    assert hand' == hand + key;
    assert handled + (hand + key) == handled + hand + key;
  }

  lemma HandleOne<T>(handled: multiset<T>, hand: multiset<T>, hand': multiset<T>, taken: multiset<T>, key: multiset<T>)
    requires handled + hand == taken && hand' + key == hand + multiset{}
    ensures handled + key + hand' == taken
  {
    assert hand' + key == hand;
    assert handled + key + hand' == handled + (hand' + key);
  }

  ghost predicate KeysAddUp(keys: seq<string>, s: State)
    requires s.next <= |keys|
  {
    multiset(s.finished) + InHand(s.tasks) == multiset(keys[..s.next])
  }

  /** Every key that was taken is in one task's hands or has been handled once, and the file and counters agree. */
  ghost predicate Inv(storage: Storage, keys: seq<string>, s: State) {
    && s.next <= |keys|
    && KeysAddUp(keys, s)
    && s.file == Lines(storage, s.finished) && s.stats == StatsFor(storage, s.finished)
    && ((exists w :: 0 <= w < |s.tasks| && s.tasks[w].Ended?) ==> s.next == |keys|)
  }

  lemma {:induction false} NothingInHand(tasks: seq<Task>)
    requires forall w | 0 <= w < |tasks| :: !tasks[w].Reading?
    ensures InHand(tasks) == multiset{}
  {
    if tasks != [] { NothingInHand(tasks[..|tasks| - 1]); }
  }

  lemma TakingKeepsKeys(storage: Storage, keys: seq<string>, s: State, w: nat)
    requires s.next <= |keys| && KeysAddUp(keys, s) && w < |s.tasks| && s.tasks[w].Ready?
    ensures var s' := Step(storage, keys, s, w); s'.next <= |keys| && KeysAddUp(keys, s')
  {
    var s' := Step(storage, keys, s, w);
    var hand, hand' := InHand(s.tasks), InHand(s'.tasks);
    InHandAfterUpdate(s.tasks, w, s'.tasks[w]);
    TakeOne(multiset(s.finished), hand, hand', multiset(keys[..s.next]), KeyIn(s'.tasks[w]));
    if s.next < |keys| {
      PrefixMore(keys, s.next);
    } else {
      assert multiset(keys[..s.next]) + multiset{} == multiset(keys[..s.next]);
    }
  }

  lemma TakingKeepsInv(storage: Storage, keys: seq<string>, s: State, w: nat)
    requires Inv(storage, keys, s) && w < |s.tasks| && s.tasks[w].Ready?
    ensures Inv(storage, keys, Step(storage, keys, s, w))
  {
    TakingKeepsKeys(storage, keys, s, w);
  }

  lemma HandlingKeepsKeys(storage: Storage, keys: seq<string>, s: State, w: nat)
    requires s.next <= |keys| && KeysAddUp(keys, s) && w < |s.tasks| && s.tasks[w].Reading?
    ensures KeysAddUp(keys, Step(storage, keys, s, w))
  {
    var key := multiset{s.tasks[w].key};
    InHandAfterUpdate(s.tasks, w, Ready);
    HandleOne(multiset(s.finished), InHand(s.tasks), InHand(s.tasks[w := Ready]), multiset(keys[..s.next]), key);
    assert multiset(s.finished + [s.tasks[w].key]) == multiset(s.finished) + key;
  }

  lemma HandlingKeepsInv(storage: Storage, keys: seq<string>, s: State, w: nat)
    requires Inv(storage, keys, s) && w < |s.tasks| && s.tasks[w].Reading?
    ensures Inv(storage, keys, Step(storage, keys, s, w))
  {
    var s' := Step(storage, keys, s, w);
    HandlingKeepsKeys(storage, keys, s, w);
    OneMoreFinished(storage, s.finished, s.tasks[w].key);
    forall v | 0 <= v < |s'.tasks| && s'.tasks[v].Ended? ensures s.tasks[v].Ended? { }
  }

  lemma OneMoreFinished(storage: Storage, finished: seq<string>, key: string)
    ensures Lines(storage, finished + [key]) == Lines(storage, finished) + LineOf(storage(key))
    ensures StatsFor(storage, finished + [key]) == Counted(StatsFor(storage, finished), storage(key))
  {
    assert (finished + [key])[..|finished|] == finished;
  }

  lemma StepKeepsInv(storage: Storage, keys: seq<string>, s: State, w: nat)
    requires Inv(storage, keys, s) && Active(s, w)
    ensures Inv(storage, keys, Step(storage, keys, s, w))
  {
    if s.tasks[w].Ready? { TakingKeepsInv(storage, keys, s, w); } else { HandlingKeepsInv(storage, keys, s, w); }
  }

  /** Every step brings the end nearer, whichever task takes it. */
  function Weight(t: Task): nat {
    match t
    case Ready => 1
    case Reading(_) => 2
    case Ended => 0
  }

  function Remaining(keys: seq<string>, s: State): nat
    requires s.next <= |keys|
  {
    2 * (|keys| - s.next) + Total(Weight, s.tasks)
  }

  lemma StepMakesProgress(storage: Storage, keys: seq<string>, s: State, w: nat)
    requires s.next <= |keys| && Active(s, w)
    ensures var s' := Step(storage, keys, s, w); s'.next <= |keys| && Remaining(keys, s') < Remaining(keys, s)
  {
    TotalAfterUpdate(Weight, s.tasks, w, Step(storage, keys, s, w).tasks[w]);
  }

  // ------------------------------------------------------------------------------------- any order is as good

  lemma Cancel<T>(x: multiset<T>, y: multiset<T>, k: T)
    requires x + multiset{k} == y + multiset{k}
    ensures x == y
  {
    assert x == x + multiset{k} - multiset{k} && y == y + multiset{k} - multiset{k};
  }

  lemma Swap(all: seq<Line>, rest: seq<Line>, one: seq<Line>, last: seq<Line>)
    requires multiset(all) == multiset(rest) + multiset(one)
    ensures multiset(all + last) == multiset(rest + last) + multiset(one)
  {
  }

  lemma LinesWithoutLast(storage: Storage, init: seq<string>, rest: seq<string>, key: string, last: string)
    requires multiset(Lines(storage, init)) == multiset(Lines(storage, rest)) + multiset(LineOf(storage(key)))
    ensures multiset(Lines(storage, init + [last]))
            == multiset(Lines(storage, rest + [last])) + multiset(LineOf(storage(key)))
  {
    OneMoreFinished(storage, init, last);
    OneMoreFinished(storage, rest, last);
    Swap(Lines(storage, init), Lines(storage, rest), LineOf(storage(key)), LineOf(storage(last)));
  }

  lemma TakeLast(a: seq<string>, key: string, b: seq<string>)
    requires b != []
    ensures var init, last := b[..|b| - 1], b[|b| - 1];
            a + [key] + b == a + [key] + init + [last] && a + b == a + init + [last]
  {
  }

  lemma {:induction false} LinesAround(storage: Storage, a: seq<string>, key: string, b: seq<string>)
    ensures multiset(Lines(storage, a + [key] + b)) == multiset(Lines(storage, a + b)) + multiset(LineOf(storage(key)))
    decreases |b|
  {
    if b == [] {
      OneMoreFinished(storage, a, key);
      assert a + [key] + b == a + [key] && a + b == a;
    } else {
      TakeLast(a, key, b);
      LinesAround(storage, a, key, b[..|b| - 1]);
      LinesWithoutLast(storage, a + [key] + b[..|b| - 1], a + b[..|b| - 1], key, b[|b| - 1]);
    }
  }

  lemma CountsCommute(c: Stats, p: Page, q: Page)
    ensures Counted(Counted(c, p), q) == Counted(Counted(c, q), p)
  {
  }

  lemma {:induction false} StatsAround(storage: Storage, a: seq<string>, key: string, b: seq<string>)
    ensures StatsFor(storage, a + [key] + b) == Counted(StatsFor(storage, a + b), storage(key))
    decreases |b|
  {
    if b == [] {
      OneMoreFinished(storage, a, key);
      assert a + [key] + b == a + [key] && a + b == a;
    } else {
      var init, last := b[..|b| - 1], b[|b| - 1];
      TakeLast(a, key, b);
      StatsAround(storage, a, key, init);
      OneMoreFinished(storage, a + [key] + init, last);
      OneMoreFinished(storage, a + init, last);
      CountsCommute(StatsFor(storage, a + init), storage(key), storage(last));
    }
  }

  /** Where the last of `a` stands in a permutation of it. */
  lemma SplitAtLast(a: seq<string>, b: seq<string>) returns (x: seq<string>, y: seq<string>)
    requires multiset(a) == multiset(b) && a != []
    ensures b == x + [a[|a| - 1]] + y && multiset(a[..|a| - 1]) == multiset(x + y)
  {
    var init, key := a[..|a| - 1], a[|a| - 1];
    assert a == init + [key];
    assert key in multiset(a);
    assert key in b;
    var i :| 0 <= i < |b| && b[i] == key;
    x, y := b[..i], b[i + 1..];
    assert b == x + [key] + y;
    Cancel(multiset(init), multiset(x + y), key);
  }

  lemma SameLength(a: seq<string>, b: seq<string>)
    requires multiset(a) == multiset(b)
    ensures |a| == |b|
  {
    assert |multiset(a)| == |a| && |multiset(b)| == |b|;
  }

  /** The same keys in another order give the same lines, as a multiset, and the same counts. */
  lemma {:induction false} OrderDoesNotMatter(storage: Storage, a: seq<string>, b: seq<string>)
    requires multiset(a) == multiset(b)
    ensures multiset(Lines(storage, a)) == multiset(Lines(storage, b))
    ensures StatsFor(storage, a) == StatsFor(storage, b)
    decreases |a|
  {
    SameLength(a, b);
    if a != [] {
      var x, y := SplitAtLast(a, b);
      OrderDoesNotMatter(storage, a[..|a| - 1], x + y);
      LastSplit(a);
      LastAnywhere(storage, a, b, a[..|a| - 1], a[|a| - 1], x, y);
    }
  }

  lemma LastAnywhere(storage: Storage, a: seq<string>, b: seq<string>, init: seq<string>, key: string, x: seq<string>,
                     y: seq<string>)
    requires a == init + [key] && b == x + [key] + y
    requires multiset(Lines(storage, init)) == multiset(Lines(storage, x + y))
    requires StatsFor(storage, init) == StatsFor(storage, x + y)
    ensures multiset(Lines(storage, a)) == multiset(Lines(storage, b))
    ensures StatsFor(storage, a) == StatsFor(storage, b)
  {
    OneMoreFinished(storage, init, key);
    LinesAround(storage, x, key, y);
    StatsAround(storage, x, key, y);
  }

  lemma {:induction false} CountersSum(storage: Storage, keys: seq<string>)
    ensures var c := StatsFor(storage, keys);
            c.materialized + c.missing + c.malformed == |keys| && c.materialized == |Lines(storage, keys)|
  {
    if keys != [] { CountersSum(storage, keys[..|keys| - 1]); }
  }

  /** At which places of the list the page is such a one. */
  ghost function Places(storage: Storage, keys: seq<string>, p: Page -> bool): set<nat> {
    set i: nat | i < |keys| && p(storage(keys[i]))
  }

  lemma OneMorePlace(storage: Storage, keys: seq<string>, p: Page -> bool)
    requires keys != []
    ensures var n := |keys| - 1;
            |Places(storage, keys, p)| == |Places(storage, keys[..n], p)| + if p(storage(keys[n])) then 1 else 0
  {
    var n := |keys| - 1;
    var before := Places(storage, keys[..n], p);
    assert Places(storage, keys, p) == if p(storage(keys[n])) then before + {n} else before;
  }

  predicate IsMissing(page: Page) { page.Missing? }

  predicate IsUnusable(page: Page) { page.Unusable? }

  predicate IsParsed(page: Page) { page.Parsed? }

  /** The page of this line. */
  function Gives(line: Line): Page -> bool {
    (page: Page) => page == Parsed(line.url, line.outlinks)
  }

  /** Every page that can be used gives one line, with its URL and its links, and each counter counts pages. */
  lemma {:induction false} LinesAndCountsAreOfPages(storage: Storage, keys: seq<string>, line: Line)
    ensures multiset(Lines(storage, keys))[line] == |Places(storage, keys, Gives(line))|
    ensures StatsFor(storage, keys).missing == |Places(storage, keys, IsMissing)|
    ensures StatsFor(storage, keys).malformed == |Places(storage, keys, IsUnusable)|
    ensures StatsFor(storage, keys).materialized == |Places(storage, keys, IsParsed)|
  {
    if keys != [] {
      LinesAndCountsAreOfPages(storage, keys[..|keys| - 1], line);
      OneMorePlace(storage, keys, Gives(line));
      OneMorePlace(storage, keys, IsMissing);
      OneMorePlace(storage, keys, IsUnusable);
      OneMorePlace(storage, keys, IsParsed);
    }
  }

  /** The file has the line of every page that can be used, once for each, and nothing else. */
  ghost predicate IsComplete(storage: Storage, keys: seq<string>, file: seq<Line>, stats: Stats) {
    && (forall line :: multiset(file)[line] == |Places(storage, keys, Gives(line))|)
    && stats.missing == |Places(storage, keys, IsMissing)|
    && stats.malformed == |Places(storage, keys, IsUnusable)|
    && stats.materialized == |Places(storage, keys, IsParsed)|
  }

  lemma EqualLinesAreComplete(storage: Storage, keys: seq<string>, file: seq<Line>)
    requires multiset(file) == multiset(Lines(storage, keys))
    ensures IsComplete(storage, keys, file, StatsFor(storage, keys))
  {
    forall line ensures multiset(file)[line] == |Places(storage, keys, Gives(line))| {
      LinesAndCountsAreOfPages(storage, keys, line);
    }
    LinesAndCountsAreOfPages(storage, keys, Line("", []));
  }

  /** When at least one task was there and all have ended, every key has been handled exactly once. */
  lemma TheEndIsExact(storage: Storage, keys: seq<string>, s: State)
    requires Inv(storage, keys, s) && AllEnded(s) && s.tasks != []
    ensures multiset(s.finished) == multiset(keys)
    ensures multiset(s.file) == multiset(Lines(storage, keys)) && s.stats == StatsFor(storage, keys)
    ensures s.stats.materialized + s.stats.missing + s.stats.malformed == |keys|
  {
    assert s.tasks[0].Ended?;
    NothingInHand(s.tasks);
    assert keys[..s.next] == keys;
    OrderDoesNotMatter(storage, s.finished, keys);
    CountersSum(storage, keys);
  }

  /** `min(max_concurrent_reads, len(keys)) or 1`, as many tasks as `range` of it has members. */
  function TaskCount(maxConcurrentReads: int, keyCount: nat): nat {
    var m := if maxConcurrentReads < keyCount then maxConcurrentReads else keyCount;
    if m == 0 then 1 else if m < 0 then 0 else m
  }

  lemma StartIsGood(storage: Storage, keys: seq<string>, tasks: nat)
    ensures Inv(storage, keys, Start(tasks))
  {
    NothingInHand(Start(tasks).tasks);
    assert keys[..0] == [];
  }

  /**
   Runs the tasks in any order whatever. All keys are read exactly if the bound is not negative or there are none:
   a bound of 0 still gets one task, while a negative one gets no task and reads nothing.
   */
  method MaterializeLinkGraph(storage: Storage, keys: seq<string>, maxConcurrentReads: int)
      returns (file: seq<Line>, stats: Stats)
    ensures maxConcurrentReads >= 0 || keys == [] ==>
              multiset(file) == multiset(Lines(storage, keys)) && stats == StatsFor(storage, keys)
              && IsComplete(storage, keys, file, stats)
              && stats.materialized + stats.missing + stats.malformed == |keys|
    ensures maxConcurrentReads < 0 && keys != [] ==> file == [] && stats == Stats(0, 0, 0)
  {
    var s := RunTasks(storage, keys, TaskCount(maxConcurrentReads, |keys|));
    file, stats := s.file, s.stats;
    if s.tasks != [] {
      TheEndIsExact(storage, keys, s);
      EqualLinesAreComplete(storage, keys, file);
    }
  }

  /** Steps one task after the other, whichever it is, until all have ended. */
  lemma OneRequest(storage: Storage, keys: seq<string>, s: State, w: nat)
    requires Inv(storage, keys, s) && w < |s.tasks| && s.tasks[w] != Ended
    ensures var s' := Step(storage, keys, s, w);
            && Inv(storage, keys, s') && |s'.tasks| == |s.tasks|
            && s.next <= |keys| && s'.next <= |keys| && Remaining(keys, s') < Remaining(keys, s)
  {
    StepKeepsInv(storage, keys, s, w);
    StepMakesProgress(storage, keys, s, w);
  }

  method RunTasks(storage: Storage, keys: seq<string>, tasks: nat) returns (s: State)
    ensures Inv(storage, keys, s) && AllEnded(s) && |s.tasks| == tasks
    ensures tasks == 0 ==> s.file == [] && s.stats == Stats(0, 0, 0)
  {
    s := Start(tasks);
    StartIsGood(storage, keys, tasks);
    while !AllEnded(s)
      invariant Inv(storage, keys, s) && |s.tasks| == tasks
      invariant tasks == 0 ==> s.file == [] && s.stats == Stats(0, 0, 0)
      decreases if s.next <= |keys| then Remaining(keys, s) else 0
    {
      var w: nat :| w < |s.tasks| && s.tasks[w] != Ended;
      OneRequest(storage, keys, s, w);
      s := Step(storage, keys, s, w);
    }
  }
}
