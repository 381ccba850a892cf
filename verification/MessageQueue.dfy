/**
 The in-memory message queue: one append-only log per stream, one cursor and one set of pending
 messages per consumer group (src/beacon_scale_infra/queue/memory.py).
 */
module MessageQueue {
  import opened Wrappers
  import opened Collections

  /** Rendered as "<seq>-0". */
  datatype MessageId = MessageId(seqNo: nat)

  datatype Message<T> = Message(id: MessageId, payload: T)

  /** `pending` counts the deliveries of every message that is not acknowledged yet. */
  datatype Group = Group(cursor: nat, pending: map<MessageId, nat>)

  datatype Stream<T> = Stream(entries: seq<Message<T>>, nextSeq: nat, groups: map<string, Group>)

  type Streams<T> = map<string, Stream<T>>

  function Min(a: nat, b: nat): nat { if a < b then a else b }

  function StreamOf<T>(q: Streams<T>, stream: string): Stream<T> {
    if stream in q then q[stream] else Stream([], 0, map[])
  }

  function Ensuring<T>(q: Streams<T>, stream: string, group: string): Streams<T> {
    var s := StreamOf(q, stream);
    q[stream := if group in s.groups then s else s.(groups := s.groups[group := Group(0, map[])])]
  }

  function Publishing<T>(q: Streams<T>, stream: string, payload: T): Streams<T> {
    var s := StreamOf(q, stream);
    q[stream := s.(entries := s.entries + [Message(MessageId(s.nextSeq), payload)], nextSeq := s.nextSeq + 1)]
  }

  predicate HasGroup<T>(q: Streams<T>, stream: string, group: string) {
    stream in q && group in q[stream].groups
  }

  /** How far a group that stands at `g` gets when it asks for `count` messages. */
  function Reach<T>(entries: seq<Message<T>>, g: Group, count: nat): nat {
    if g.cursor <= |entries| then Min(|entries|, g.cursor + count) else g.cursor
  }

  /** The messages that one `consume` hands out. */
  function New<T>(entries: seq<Message<T>>, g: Group, count: nat): seq<Message<T>> {
    if g.cursor <= |entries| then entries[g.cursor..Reach(entries, g, count)] else []
  }

  /** These entries are next for the group: `count` of them, or fewer if there are no more. */
  ghost predicate IsNext<T>(s: Stream<T>, group: string, messages: seq<Message<T>>, count: nat)
    requires group in s.groups
  {
    var cursor := s.groups[group].cursor;
    && |messages| <= count && (|messages| == count || cursor + |messages| >= |s.entries|)
    && (messages != [] ==>
          cursor + |messages| <= |s.entries| && messages == s.entries[cursor..cursor + |messages|])
  }

  function WithPending<T>(pending: map<MessageId, nat>, messages: seq<Message<T>>): map<MessageId, nat>
    decreases |messages|
  {
    if messages == [] then pending else
      WithPending(pending, messages[..|messages| - 1])[messages[|messages| - 1].id := 1]
  }

  function Advance<T>(entries: seq<Message<T>>, g: Group, count: nat): Group {
    Group(Reach(entries, g, count), WithPending(g.pending, New(entries, g, count)))
  }

  function Consuming<T>(q: Streams<T>, stream: string, group: string, count: nat): Streams<T>
    requires HasGroup(q, stream, group)
  {
    var s := q[stream];
    q[stream := s.(groups := s.groups[group := Advance(s.entries, s.groups[group], count)])]
  }

  function Acking<T>(q: Streams<T>, stream: string, group: string, id: MessageId): Streams<T> {
    if !HasGroup(q, stream, group) then q else
      var s := q[stream];
      q[stream := s.(groups := s.groups[group := s.groups[group].(pending := s.groups[group].pending - {id})])]
  }

  class InMemoryMessageQueue<T> {
    var streams: Streams<T>

    constructor ()
      ensures streams == map[]
    {
      streams := map[];
    }

    method EnsureGroup(stream: string, group: string)
      modifies this
      ensures streams == Ensuring(old(streams), stream, group)
    {
      var s := StreamOf(streams, stream);
      if group !in s.groups {
        s := s.(groups := s.groups[group := Group(0, map[])]);
      }
      streams := streams[stream := s];
    }

    method Publish(stream: string, payload: T) returns (id: MessageId)
      modifies this
      ensures id == MessageId(StreamOf(old(streams), stream).nextSeq)
      ensures streams == Publishing(old(streams), stream, payload)
    {
      var s := StreamOf(streams, stream);
      id := MessageId(s.nextSeq);
      streams := streams[stream := s.(entries := s.entries + [Message(id, payload)], nextSeq := s.nextSeq + 1)];
    }

    /**
     What `consume` does under the lock: the entries that come next for the group, `count` of them or all that there
     are. An empty answer is what a poll that times out returns.
     */
    method Consume(stream: string, group: string, count: nat) returns (r: Result<seq<Message<T>>>)
      modifies this
      ensures r.Success? <==> HasGroup(old(streams), stream, group)
      ensures r.Failure? ==> streams == old(streams)
      ensures r.Success? ==>
                && streams == Consuming(old(streams), stream, group, count)
                && r.value == New(old(streams)[stream].entries, old(streams)[stream].groups[group], count)
      ensures r.Success? ==>
                && IsNext(old(streams)[stream], group, r.value, count)
                && HasGroup(streams, stream, group)
                && streams[stream].groups[group].cursor == old(streams)[stream].groups[group].cursor + |r.value|
    {
      if !HasGroup(streams, stream, group) {
        return Failure("the group does not exist for the stream; call ensure_group first");
      }
      var s := streams[stream];
      var cursor, pending := s.groups[group].cursor, s.groups[group].pending;
      var collected: seq<Message<T>> := [];
      ghost var all := New(s.entries, s.groups[group], count);
      assert all[..0] == [];
      while cursor < |s.entries| && |collected| < count
        invariant cursor == s.groups[group].cursor + |collected|
        invariant |collected| <= |all| && collected == all[..|collected|]
        invariant pending == WithPending(s.groups[group].pending, collected)
        decreases count - |collected|
      {
        var message := s.entries[cursor];
        assert message == all[|collected|];
        assert (collected + [message])[..|collected|] == collected;
        cursor := cursor + 1;
        pending := pending[message.id := 1];
        collected := collected + [message];
      }
      assert collected == all;
      streams := streams[stream := s.(groups := s.groups[group := Group(cursor, pending)])];
      r := Success(collected);
    }

    method Ack(stream: string, group: string, id: MessageId)
      modifies this
      ensures streams == Acking(old(streams), stream, group, id)
    {
      if HasGroup(streams, stream, group) {
        var s := streams[stream];
        var g := s.groups[group];
        streams := streams[stream := s.(groups := s.groups[group := g.(pending := g.pending - {id})])];
      }
    }
  }

  // ------------------------------------------------------------ any interleaving of publishers and consumers

  datatype Call<T> =
    | Ensured(stream: string, group: string)
    | Published(stream: string, payload: T)
    | Consumed(stream: string, group: string, consumer: string, count: nat)
    | Acked(stream: string, group: string, id: MessageId)

  function Step<T>(q: Streams<T>, c: Call<T>): Streams<T> {
    match c
    case Ensured(stream, group) => Ensuring(q, stream, group)
    case Published(stream, payload) => Publishing(q, stream, payload)
    case Consumed(stream, group, _, count) =>
      if HasGroup(q, stream, group) then Consuming(q, stream, group, count) else q
    case Acked(stream, group, id) => Acking(q, stream, group, id)
  }

  function After<T>(calls: seq<Call<T>>): Streams<T>
    decreases |calls|
  {
    if calls == [] then map[] else Step(After(calls[..|calls| - 1]), calls[|calls| - 1])
  }

  /** The payloads of a stream, in publication order. */
  function PublishedTo<T>(calls: seq<Call<T>>, stream: string): seq<T>
    decreases |calls|
  {
    if calls == [] then [] else
      var c := calls[|calls| - 1];
      PublishedTo(calls[..|calls| - 1], stream) + (if c.Published? && c.stream == stream then [c.payload] else [])
  }

  /** What the last call hands to the group, whoever its consumer is. */
  function HandedOut<T>(q: Streams<T>, c: Call<T>, stream: string, group: string): seq<Message<T>> {
    if c.Consumed? && c.stream == stream && c.group == group && HasGroup(q, stream, group)
    then New(q[stream].entries, q[stream].groups[group], c.count) else []
  }

  /** Everything the consumers of a group have received, in delivery order. */
  function DeliveredTo<T>(calls: seq<Call<T>>, stream: string, group: string): seq<Message<T>>
    decreases |calls|
  {
    if calls == [] then [] else
      DeliveredTo(calls[..|calls| - 1], stream, group)
      + HandedOut(After(calls[..|calls| - 1]), calls[|calls| - 1], stream, group)
  }

  function IdsOf<T>(messages: seq<Message<T>>): set<MessageId> {
    set i | 0 <= i < |messages| :: messages[i].id
  }

  /** Delivered to the group and not acknowledged since. */
  function Outstanding<T>(calls: seq<Call<T>>, stream: string, group: string): set<MessageId>
    decreases |calls|
  {
    if calls == [] then {} else
      var before, c := Outstanding(calls[..|calls| - 1], stream, group), calls[|calls| - 1];
      if c.Acked? && c.stream == stream && c.group == group then before - {c.id}
      else before + IdsOf(HandedOut(After(calls[..|calls| - 1]), c, stream, group))
  }

  function Numbered<T>(payloads: seq<T>): seq<Message<T>> {
    seq(|payloads|, i requires 0 <= i < |payloads| => Message(MessageId(i), payloads[i]))
  }

  /** How a stream must look once `payloads` were published to it and a group has been handed `delivered`. */
  ghost predicate Tracks<T>(s: Stream<T>, group: string, payloads: seq<T>,
                            delivered: seq<Message<T>>, outstanding: set<MessageId>)
  {
    && s.entries == Numbered(payloads) && s.nextSeq == |s.entries|
    && (group !in s.groups ==> delivered == [] && outstanding == {})
    && (group in s.groups ==>
          && s.groups[group].cursor <= |s.entries|
          && delivered == s.entries[..s.groups[group].cursor]
          && s.groups[group].pending.Keys == outstanding
          && forall id | id in s.groups[group].pending :: s.groups[group].pending[id] == 1)
  }

  lemma {:induction false} WithPendingKeys<T>(pending: map<MessageId, nat>, messages: seq<Message<T>>)
    requires forall id | id in pending :: pending[id] == 1
    ensures WithPending(pending, messages).Keys == pending.Keys + IdsOf(messages)
    ensures forall id | id in WithPending(pending, messages) :: WithPending(pending, messages)[id] == 1
    decreases |messages|
  {
    if messages != [] {
      var init, last := messages[..|messages| - 1], messages[|messages| - 1];
      WithPendingKeys(pending, init);
      assert IdsOf(messages) == IdsOf(init) + {last.id};
    }
  }

  lemma PublishTracks<T>(s: Stream<T>, group: string, payloads: seq<T>,
                         delivered: seq<Message<T>>, outstanding: set<MessageId>, payload: T)
    requires Tracks(s, group, payloads, delivered, outstanding)
    ensures Tracks(s.(entries := s.entries + [Message(MessageId(s.nextSeq), payload)], nextSeq := s.nextSeq + 1),
                   group, payloads + [payload], delivered, outstanding)
  {
  }

  lemma ConsumeTracks<T>(s: Stream<T>, group: string, payloads: seq<T>,
                         delivered: seq<Message<T>>, outstanding: set<MessageId>, count: nat)
    requires Tracks(s, group, payloads, delivered, outstanding) && group in s.groups
    ensures var handed := New(s.entries, s.groups[group], count);
            Tracks(s.(groups := s.groups[group := Advance(s.entries, s.groups[group], count)]),
                   group, payloads, delivered + handed, outstanding + IdsOf(handed))
  {
    WithPendingKeys(s.groups[group].pending, New(s.entries, s.groups[group], count));
  }

  lemma StepTracks<T>(q: Streams<T>, c: Call<T>, stream: string, group: string,
                      payloads: seq<T>, delivered: seq<Message<T>>, outstanding: set<MessageId>)
    requires Tracks(StreamOf(q, stream), group, payloads, delivered, outstanding)
    ensures Tracks(StreamOf(Step(q, c), stream), group,
                   payloads + (if c.Published? && c.stream == stream then [c.payload] else []),
                   delivered + HandedOut(q, c, stream, group),
                   if c.Acked? && c.stream == stream && c.group == group then outstanding - {c.id}
                   else outstanding + IdsOf(HandedOut(q, c, stream, group)))
  {
    assert payloads + [] == payloads && delivered + [] == delivered;
    match c
    case Ensured(_, _) =>
    case Acked(_, _, _) =>
    case Published(s, payload) =>
      if s == stream { PublishTracks(StreamOf(q, stream), group, payloads, delivered, outstanding, payload); }
    case Consumed(s, g, _, count) =>
      if s == stream && g == group && HasGroup(q, s, g) {
        ConsumeTracks(q[stream], group, payloads, delivered, outstanding, count);
      }
  }

  /** FIFO, each once: whatever the interleaving, a group has received exactly the published prefix up to
      its cursor, and its pending messages are those delivered and not acknowledged since. */
  lemma {:induction false} GroupReceivesThePublishedPrefix<T>(calls: seq<Call<T>>, stream: string, group: string)
    ensures Tracks(StreamOf(After(calls), stream), group,
                   PublishedTo(calls, stream), DeliveredTo(calls, stream, group), Outstanding(calls, stream, group))
    decreases |calls|
  {
    if calls != [] {
      var init, c := calls[..|calls| - 1], calls[|calls| - 1];
      GroupReceivesThePublishedPrefix(init, stream, group);
      StepTracks(After(init), c, stream, group,
                 PublishedTo(init, stream), DeliveredTo(init, stream, group), Outstanding(init, stream, group));
    }
  }

  /** The calls that concern the stream itself or this group. */
  function Concerning<T>(calls: seq<Call<T>>, stream: string, group: string): seq<Call<T>>
    decreases |calls|
  {
    if calls == [] then [] else
      var c := calls[|calls| - 1];
      var before := Concerning(calls[..|calls| - 1], stream, group);
      if Concerns(c, stream, group) then before + [c] else before
  }

  ghost predicate SameForGroup<T>(q: Streams<T>, r: Streams<T>, stream: string, group: string) {
    var s, t := StreamOf(q, stream), StreamOf(r, stream);
    && s.entries == t.entries && s.nextSeq == t.nextSeq
    && (group in s.groups <==> group in t.groups)
    && (group in s.groups ==> s.groups[group] == t.groups[group])
  }

  lemma OneMoreCall<T>(calls: seq<Call<T>>, c: Call<T>, stream: string, group: string)
    ensures After(calls + [c]) == Step(After(calls), c)
    ensures DeliveredTo(calls + [c], stream, group)
            == DeliveredTo(calls, stream, group) + HandedOut(After(calls), c, stream, group)
    ensures Outstanding(calls + [c], stream, group)
            == if c.Acked? && c.stream == stream && c.group == group then Outstanding(calls, stream, group) - {c.id}
               else Outstanding(calls, stream, group) + IdsOf(HandedOut(After(calls), c, stream, group))
  {
    assert (calls + [c])[..|calls|] == calls;
  }

  /** For this group the two histories come to the same. */
  ghost predicate AlikeFor<T>(a: seq<Call<T>>, b: seq<Call<T>>, stream: string, group: string) {
    && DeliveredTo(a, stream, group) == DeliveredTo(b, stream, group)
    && Outstanding(a, stream, group) == Outstanding(b, stream, group)
    && SameForGroup(After(a), After(b), stream, group)
  }

  predicate Concerns<T>(c: Call<T>, stream: string, group: string) {
    c.stream == stream && (c.Published? || c.group == group)
  }

  lemma OwnCallKeepsAlike<T>(a: seq<Call<T>>, b: seq<Call<T>>, c: Call<T>, stream: string, group: string)
    requires AlikeFor(a, b, stream, group) && Concerns(c, stream, group)
    ensures AlikeFor(a + [c], b + [c], stream, group)
  {
    OneMoreCall(a, c, stream, group);
    OneMoreCall(b, c, stream, group);
    StepRespectsGroup(After(a), After(b), c, stream, group);
  }

  lemma ForeignStepIsUnseen<T>(q: Streams<T>, c: Call<T>, stream: string, group: string)
    requires !Concerns(c, stream, group)
    ensures SameForGroup(q, Step(q, c), stream, group) && HandedOut(q, c, stream, group) == []
  {
  }

  lemma ForeignCallKeepsAlike<T>(a: seq<Call<T>>, b: seq<Call<T>>, c: Call<T>, stream: string, group: string)
    requires AlikeFor(a, b, stream, group) && !Concerns(c, stream, group)
    ensures AlikeFor(a, b + [c], stream, group)
  {
    OneMoreCall(b, c, stream, group);
    ForeignStepIsUnseen(After(b), c, stream, group);
  }

  /** Other streams and other groups never change what a group has received or holds pending. */
  lemma {:induction false} GroupsDoNotInterfere<T>(calls: seq<Call<T>>, stream: string, group: string)
    ensures AlikeFor(Concerning(calls, stream, group), calls, stream, group)
    decreases |calls|
  {
    if calls != [] {
      var init, c := calls[..|calls| - 1], calls[|calls| - 1];
      LastSplit(calls);
      GroupsDoNotInterfere(init, stream, group);
      if Concerns(c, stream, group) {
        OwnCallKeepsAlike(Concerning(init, stream, group), init, c, stream, group);
      } else {
        ForeignCallKeepsAlike(Concerning(init, stream, group), init, c, stream, group);
      }
    }
  }

  lemma StepRespectsGroup<T>(q: Streams<T>, r: Streams<T>, c: Call<T>, stream: string, group: string)
    requires SameForGroup(q, r, stream, group) && c.stream == stream
    ensures SameForGroup(Step(q, c), Step(r, c), stream, group)
    ensures HandedOut(q, c, stream, group) == HandedOut(r, c, stream, group)
  {
  }
}
