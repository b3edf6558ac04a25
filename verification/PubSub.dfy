/** Subscriptions as two maps of lists, fan-out of published messages, and per-subscriber mailboxes. */
module PubSub {
  import opened Entries

  /** `channel_map_` and `subscriber_map_`. */
  datatype Registry = Registry(channels: map<string, seq<nat>>, subscribers: map<nat, seq<string>>)

  type Queues = map<nat, seq<string>>

  function At<K, V>(m: map<K, seq<V>>, k: K): seq<V> {
    if k in m then m[k] else []
  }

  ghost predicate NoDuplicates<V>(s: seq<V>) {
    forall i, j :: 0 <= i < j < |s| ==> s[i] != s[j]
  }

  function Adding<V(==)>(s: seq<V>, x: V): seq<V> {
    if x in s then s else s + [x]
  }

  /** The erase-remove idiom. */
  function Without<V(==)>(s: seq<V>, x: V): seq<V> {
    if s == [] then [] else Without(s[..|s| - 1], x) + if s[|s| - 1] == x then [] else [s[|s| - 1]]
  }

  function Subscribed(r: Registry, c: string, id: nat): Registry {
    Registry(r.channels[c := Adding(At(r.channels, c), id)], r.subscribers[id := Adding(At(r.subscribers, id), c)])
  }

  /** Erases `id` from the list of `c`, if there is one. */
  function Drop(channels: map<string, seq<nat>>, c: string, id: nat): map<string, seq<nat>> {
    if c in channels then channels[c := Without(channels[c], id)] else channels
  }

  function Unsubscribed(r: Registry, c: string, id: nat): Registry {
    Registry(Drop(r.channels, c, id),
             if id in r.subscribers then r.subscribers[id := Without(r.subscribers[id], c)] else r.subscribers)
  }

  function DropAll(channels: map<string, seq<nat>>, cs: seq<string>, id: nat): map<string, seq<nat>> {
    if cs == [] then channels else Drop(DropAll(channels, cs[..|cs| - 1], id), cs[|cs| - 1], id)
  }

  function UnsubscribedAll(r: Registry, id: nat): Registry {
    if id in r.subscribers
    then Registry(DropAll(r.channels, r.subscribers[id], id), r.subscribers - {id})
    else r
  }

  /** Enqueues `message` once for each id of the list, in order. */
  function Deliver(q: Queues, ids: seq<nat>, message: string): Queues {
    if ids == [] then q
    else
      var before, id := Deliver(q, ids[..|ids| - 1], message), ids[|ids| - 1];
      before[id := At(before, id) + [message]]
  }

  function Copies(message: string, n: nat): (r: seq<string>)
    ensures |r| == n && forall i :: 0 <= i < n ==> r[i] == message
  {
    seq(n, _ => message)
  }

  /** Each queue gets as many copies of the message as the list names its id. */
  lemma {:induction false} DeliverCopies(q: Queues, ids: seq<nat>, message: string, id: nat)
    ensures At(Deliver(q, ids, message), id) == At(q, id) + Copies(message, multiset(ids)[id])
  {
    if ids == [] {
      assert multiset(ids)[id] == 0;
    } else {
      var n := |ids| - 1;
      DeliverCopies(q, ids[..n], message, id);
      assert ids == ids[..n] + [ids[n]];
      assert multiset(ids) == multiset(ids[..n]) + multiset{ids[n]};
      if ids[n] == id {
        assert Copies(message, multiset(ids)[id]) == Copies(message, multiset(ids[..n])[id]) + [message];
      }
    }
  }

  // ----- The classes -----

  class ChannelRegistry {
    var channels: map<string, seq<nat>>
    var subscribers: map<nat, seq<string>>

    ghost function View(): Registry
      reads this
    {
      Registry(channels, subscribers)
    }

    constructor ()
      ensures View() == Registry(map[], map[])
    {
      channels, subscribers := map[], map[];
    }

    method Subscribe(channel: string, subscriber: nat)
      modifies this
      ensures View() == Subscribed(old(View()), channel, subscriber)
    {
      var list := At(channels, channel);
      if subscriber !in list {
        list := list + [subscriber];
      }
      channels := channels[channel := list];
      var own := At(subscribers, subscriber);
      if channel !in own {
        own := own + [channel];
      }
      subscribers := subscribers[subscriber := own];
    }

    method Unsubscribe(channel: string, subscriber: nat)
      modifies this
      ensures View() == Unsubscribed(old(View()), channel, subscriber)
    {
      if channel in channels {
        channels := channels[channel := Without(channels[channel], subscriber)];
      }
      if subscriber in subscribers {
        subscribers := subscribers[subscriber := Without(subscribers[subscriber], channel)];
      }
    }

    method UnsubscribeAll(subscriber: nat)
      modifies this
      ensures View() == UnsubscribedAll(old(View()), subscriber)
    {
      if subscriber !in subscribers {
        return;
      }
      var own := subscribers[subscriber];
      for i := 0 to |own|
        invariant subscribers == old(subscribers)
        invariant channels == DropAll(old(channels), own[..i], subscriber)
      {
        assert own[..i + 1][..i] == own[..i];
        if own[i] in channels {
          channels := channels[own[i] := Without(channels[own[i]], subscriber)];
        }
      }
      assert own[..|own|] == own;
      subscribers := subscribers - {subscriber};
    }

    function Subscribers(channel: string): seq<nat>
      reads this
    {
      At(channels, channel)
    }
  }

  class SessionMailbox {
    var queues: Queues

    constructor ()
      ensures queues == map[]
    {
      queues := map[];
    }

    method Enqueue(id: nat, message: string)
      modifies this
      ensures queues == Deliver(old(queues), [id], message)
    {
      assert [id][..0] == [];
      queues := queues[id := At(queues, id) + [message]];
    }

    method TryDequeue(id: nat) returns (message: Option<string>)
      modifies this
      ensures message == if At(old(queues), id) == [] then None else Some(old(queues)[id][0])
      ensures queues == if message == None then old(queues) else old(queues)[id := old(queues)[id][1..]]
    {
      if id !in queues || queues[id] == [] {
        return None;
      }
      message := Some(queues[id][0]);
      queues := queues[id := queues[id][1..]];
    }
  }

  class PubSubBroker {
    const registry: ChannelRegistry
    var delivery: SessionMailbox?

    constructor (registry: ChannelRegistry)
      ensures this.registry == registry && delivery == null
    {
      this.registry := registry;
      delivery := null;
    }

    /** `wire_broker_delivery` */
    method Wire(mailbox: SessionMailbox)
      modifies this
      ensures delivery == mailbox
    {
      delivery := mailbox;
    }

    /** Every listed subscriber gets the message once per listing, and no other queue changes. */
    method Publish(channel: string, message: string) returns (delivered: nat)
      modifies delivery
      ensures delivered == |At(registry.channels, channel)|
      ensures delivery != null ==>
                delivery.queues == Deliver(old(delivery.queues), At(registry.channels, channel), message)
      ensures delivery != null ==>
                forall id :: At(delivery.queues, id) == At(old(delivery.queues), id) +
                                 Copies(message, multiset(At(registry.channels, channel))[id])
    {
      var targets := registry.Subscribers(channel);
      if delivery != null {
        forall id: nat ensures At(Deliver(delivery.queues, targets, message), id) ==
                               At(delivery.queues, id) + Copies(message, multiset(targets)[id]) {
          DeliverCopies(delivery.queues, targets, message, id);
        }
      }
      for i := 0 to |targets|
        invariant delivery != null ==> delivery.queues == Deliver(old(delivery.queues), targets[..i], message)
      {
        assert targets[..i + 1][..i] == targets[..i];
        if delivery != null {
          delivery.Enqueue(targets[i], message);
        }
      }
      assert targets[..|targets|] == targets;
      return |targets|;
    }
  }

  // ----- Whole runs against a set of (channel, subscriber) pairs -----

  datatype Event =
    | Sub(channel: string, id: nat)
    | Unsub(channel: string, id: nat)
    | UnsubAll(id: nat)
    | Publish(channel: string, message: string)
    | Dequeue(id: nat)

  /** The registry, the mailboxes, and what each subscriber has dequeued. */
  datatype System = System(registry: Registry, queues: Queues, taken: Queues)

  const START := System(Registry(map[], map[]), map[], map[])

  function Step(s: System, ev: Event): System {
    match ev
    case Sub(c, id) => s.(registry := Subscribed(s.registry, c, id))
    case Unsub(c, id) => s.(registry := Unsubscribed(s.registry, c, id))
    case UnsubAll(id) => s.(registry := UnsubscribedAll(s.registry, id))
    case Publish(c, message) => s.(queues := Deliver(s.queues, At(s.registry.channels, c), message))
    case Dequeue(id) =>
      var q := At(s.queues, id);
      if q == [] then s
      else s.(queues := s.queues[id := q[1..]], taken := s.taken[id := At(s.taken, id) + [q[0]]])
  }

  function Run(run: seq<Event>): System {
    if run == [] then START else Step(Run(run[..|run| - 1]), run[|run| - 1])
  }

  /** Who is subscribed to what after a run, as a set of pairs. */
  function Pairs(run: seq<Event>): set<(string, nat)> {
    if run == [] then {}
    else
      var p := Pairs(run[..|run| - 1]);
      match run[|run| - 1]
      case Sub(c, id) => p + {(c, id)}
      case Unsub(c, id) => p - {(c, id)}
      case UnsubAll(id) => set x | x in p && x.1 != id
      case _ => p
  }

  /** The messages published to a channel of `id` while `id` was subscribed to it, in order. */
  function Expected(run: seq<Event>, id: nat): seq<string> {
    if run == [] then []
    else
      var before, ev := run[..|run| - 1], run[|run| - 1];
      Expected(before, id) + if ev.Publish? && (ev.channel, id) in Pairs(before) then [ev.message] else []
  }

  ghost predicate ChannelListed(r: Registry, p: set<(string, nat)>, c: string) {
    NoDuplicates(At(r.channels, c)) && forall id: nat :: id in At(r.channels, c) <==> (c, id) in p
  }

  ghost predicate SubscriberListed(r: Registry, p: set<(string, nat)>, id: nat) {
    NoDuplicates(At(r.subscribers, id)) && forall c :: c in At(r.subscribers, id) <==> (c, id) in p
  }

  /** Both maps list exactly the pairs of `p`, each once, so they are inverse to each other. */
  ghost predicate Indexes(r: Registry, p: set<(string, nat)>) {
    && (forall c {:trigger ChannelListed(r, p, c)} :: ChannelListed(r, p, c))
    && (forall id: nat {:trigger SubscriberListed(r, p, id)} :: SubscriberListed(r, p, id))
  }

  lemma AddingHolds<V>(s: seq<V>, x: V)
    requires NoDuplicates(s)
    ensures NoDuplicates(Adding(s, x)) && forall y :: y in Adding(s, x) <==> y in s || y == x
  {
  }

  lemma {:induction false} WithoutHolds<V>(s: seq<V>, x: V)
    requires NoDuplicates(s)
    ensures NoDuplicates(Without(s, x)) && forall y :: y in Without(s, x) <==> y in s && y != x
  {
    if s != [] {
      var t, last := s[..|s| - 1], s[|s| - 1];
      WithoutHolds(t, x);
      assert s == t + [last] && last !in t;
      assert forall i :: 0 <= i < |Without(t, x)| ==> Without(t, x)[i] in Without(t, x);
    }
  }

  lemma SubscribeIndexes(r: Registry, p: set<(string, nat)>, c: string, id: nat)
    requires Indexes(r, p)
    ensures Indexes(Subscribed(r, c, id), p + {(c, id)})
  {
    var q := p + {(c, id)};
    var r' := Subscribed(r, c, id);
    forall k ensures ChannelListed(r', q, k) {
      assert ChannelListed(r, p, k);
      AddingHolds(At(r.channels, k), id);
    }
    forall k: nat ensures SubscriberListed(r', q, k) {
      assert SubscriberListed(r, p, k);
      AddingHolds(At(r.subscribers, k), c);
    }
  }

  lemma UnsubscribeIndexes(r: Registry, p: set<(string, nat)>, c: string, id: nat)
    requires Indexes(r, p)
    ensures Indexes(Unsubscribed(r, c, id), p - {(c, id)})
  {
    var q := p - {(c, id)};
    var r' := Unsubscribed(r, c, id);
    forall k ensures ChannelListed(r', q, k) {
      assert ChannelListed(r, p, k);
      WithoutHolds(At(r.channels, k), id);
    }
    forall k: nat ensures SubscriberListed(r', q, k) {
      assert SubscriberListed(r, p, k);
      WithoutHolds(At(r.subscribers, k), c);
    }
  }

  lemma {:induction false} DropAllHolds(channels: map<string, seq<nat>>, cs: seq<string>, id: nat, c: string)
    requires NoDuplicates(At(channels, c))
    ensures var list := At(DropAll(channels, cs, id), c);
            && NoDuplicates(list)
            && forall x :: x in list <==> x in At(channels, c) && (c in cs ==> x != id)
  {
    if cs != [] {
      var n := |cs| - 1;
      DropAllHolds(channels, cs[..n], id, c);
      WithoutHolds(At(DropAll(channels, cs[..n], id), c), id);
      assert c in cs <==> c in cs[..n] || c == cs[n];
    }
  }

  lemma UnsubscribeAllIndexes(r: Registry, p: set<(string, nat)>, id: nat)
    requires Indexes(r, p)
    ensures Indexes(UnsubscribedAll(r, id), set x | x in p && x.1 != id)
  {
    var q := set x | x in p && x.1 != id;
    assert SubscriberListed(r, p, id);
    var r' := UnsubscribedAll(r, id);
    forall k ensures ChannelListed(r', q, k) {
      assert ChannelListed(r, p, k);
      DropAllHolds(r.channels, At(r.subscribers, id), id, k);
    }
    forall k: nat ensures SubscriberListed(r', q, k) {
      assert SubscriberListed(r, p, k);
    }
  }

  lemma {:induction false} DeliverReaches(q: Queues, ids: seq<nat>, message: string, id: nat)
    requires NoDuplicates(ids)
    ensures At(Deliver(q, ids, message), id) == At(q, id) + if id in ids then [message] else []
  {
    if ids != [] {
      var n := |ids| - 1;
      DeliverReaches(q, ids[..n], message, id);
      assert ids == ids[..n] + [ids[n]];
    }
  }

  lemma {:induction false} SizeOfList<V>(s: seq<V>, members: set<V>)
    requires NoDuplicates(s) && forall x :: x in s <==> x in members
    ensures |s| == |members|
  {
    if s == [] {
      assert members == {};
    } else {
      var t, last := s[..|s| - 1], s[|s| - 1];
      assert s == t + [last] && last !in t;
      SizeOfList(t, members - {last});
    }
  }

  /** `publish` counts, and reaches once each, exactly the ids subscribed to the channel at that point. */
  lemma PublishReaches(run: seq<Event>, c: string, message: string)
    ensures var s, ids := Run(run), set x | x in Pairs(run) && x.0 == c :: x.1;
            var r := Run(run + [Publish(c, message)]);
            && |At(s.registry.channels, c)| == |ids|
            && (forall id :: id in ids ==> At(r.queues, id) == At(s.queues, id) + [message])
            && (forall id :: id !in ids ==> At(r.queues, id) == At(s.queues, id))
            && r.registry == s.registry && r.taken == s.taken
  {
    var s, ids, all := Run(run), set x | x in Pairs(run) && x.0 == c :: x.1, run + [Publish(c, message)];
    assert all[..|all| - 1] == run;
    var list := At(s.registry.channels, c);
    RunIndexes(run);
    assert ChannelListed(s.registry, Pairs(run), c);
    forall id: nat ensures id in list <==> id in ids {
      assert (c, id) in Pairs(run) <==> id in ids;
    }
    SizeOfList(list, ids);
    forall id: nat
      ensures At(Run(all).queues, id) == At(s.queues, id) + if id in ids then [message] else []
    {
      DeliverReaches(s.queues, list, message, id);
    }
  }

  lemma {:induction false} RunIndexes(run: seq<Event>)
    ensures Indexes(Run(run).registry, Pairs(run))
  {
    if run != [] {
      var before := run[..|run| - 1];
      RunIndexes(before);
      var r, p := Run(before).registry, Pairs(before);
      match run[|run| - 1]
      case Sub(c, id) => SubscribeIndexes(r, p, c, id);
      case Unsub(c, id) => UnsubscribeIndexes(r, p, c, id);
      case UnsubAll(id) => UnsubscribeAllIndexes(r, p, id);
      case _ =>
    }
  }

  lemma DequeueMoves(s: System, x: nat, id: nat)
    ensures var r := Step(s, Dequeue(x)); At(r.taken, id) + At(r.queues, id) == At(s.taken, id) + At(s.queues, id)
  {
    var q := At(s.queues, id);
    if x == id && q != [] {
      assert q == [q[0]] + q[1..];
    }
  }

  /** What a subscriber has dequeued, followed by what waits for it, is exactly what it was meant to get. */
  lemma {:induction false} DeliveredInOrder(run: seq<Event>, id: nat)
    ensures At(Run(run).taken, id) + At(Run(run).queues, id) == Expected(run, id)
  {
    if run != [] {
      var before, ev := run[..|run| - 1], run[|run| - 1];
      DeliveredInOrder(before, id);
      var s := Run(before);
      if ev.Publish? {
        RunIndexes(before);
        assert ChannelListed(s.registry, Pairs(before), ev.channel);
        DeliverReaches(s.queues, At(s.registry.channels, ev.channel), ev.message, id);
      } else if ev.Dequeue? {
        DequeueMoves(s, ev.id, id);
      }
    }
  }

  /** How many of the dequeues of `id` found a message waiting. */
  function Served(run: seq<Event>, id: nat): (n: nat)
    ensures n <= |Expected(run, id)|
  {
    if run == [] then 0
    else
      var before := run[..|run| - 1];
      Served(before, id) +
      if run[|run| - 1] == Dequeue(id) && Served(before, id) < |Expected(before, id)| then 1 else 0
  }

  lemma SplitAt(taken: seq<string>, waiting: seq<string>, all: seq<string>)
    requires taken + waiting == all
    ensures |taken| <= |all| && taken == all[..|taken|] && waiting == all[|taken|..]
  {
  }

  /** Every dequeue takes the oldest message not yet taken, as long as there is one. */
  lemma {:induction false} DequeuedInOrder(run: seq<Event>, id: nat)
    ensures At(Run(run).taken, id) == Expected(run, id)[..Served(run, id)]
    ensures At(Run(run).queues, id) == Expected(run, id)[Served(run, id)..]
  {
    DeliveredInOrder(run, id);
    ServedCounts(run, id);
    SplitAt(At(Run(run).taken, id), At(Run(run).queues, id), Expected(run, id));
  }

  lemma {:induction false} ServedCounts(run: seq<Event>, id: nat)
    ensures |At(Run(run).taken, id)| == Served(run, id)
  {
    if run != [] {
      ServedCounts(run[..|run| - 1], id);
      DeliveredInOrder(run[..|run| - 1], id);
    }
  }

  // ----- The classes follow the runs -----

  /** Carries one event out on the objects; `received` collects what the dequeues return. */
  method Perform(broker: PubSubBroker, mailbox: SessionMailbox, ev: Event, received: Queues)
    returns (now: Queues)
    requires broker.delivery == mailbox
    modifies broker.registry, mailbox
    ensures System(broker.registry.View(), mailbox.queues, now) ==
            Step(System(old(broker.registry.View()), old(mailbox.queues), received), ev)
  {
    now := received;
    match ev
    case Sub(c, id) => broker.registry.Subscribe(c, id);
    case Unsub(c, id) => broker.registry.Unsubscribe(c, id);
    case UnsubAll(id) => broker.registry.UnsubscribeAll(id);
    case Publish(c, message) => var _ := broker.Publish(c, message);
    case Dequeue(id) =>
      var message := mailbox.TryDequeue(id);
      if message.Some? {
        now := received[id := At(received, id) + [message.value]];
      }
  }

  /**
   * On a new registry, mailbox and wired broker, any run of calls hands every subscriber exactly the
   * oldest messages published to its channels while it was subscribed, one per dequeue that found any.
   */
  method PerformAll(run: seq<Event>) returns (received: Queues)
    ensures forall id :: At(received, id) == Expected(run, id)[..Served(run, id)]
  {
    var registry := new ChannelRegistry();
    var mailbox := new SessionMailbox();
    var broker := new PubSubBroker(registry);
    broker.Wire(mailbox);
    received := map[];
    for i := 0 to |run|
      invariant broker.delivery == mailbox && broker.registry == registry
      invariant System(registry.View(), mailbox.queues, received) == Run(run[..i])
    {
      assert run[..i + 1][..i] == run[..i];
      received := Perform(broker, mailbox, run[i], received);
    }
    assert run[..|run|] == run;
    forall id: nat ensures At(received, id) == Expected(run, id)[..Served(run, id)] {
      DequeuedInOrder(run, id);
    }
  }

  /** After `unsubscribe_all` no channel lists the subscriber, whatever came before. */
  lemma UnsubscribeAllLeavesNone(run: seq<Event>, id: nat, c: string)
    ensures id !in At(Run(run + [UnsubAll(id)]).registry.channels, c)
  {
    var all := run + [UnsubAll(id)];
    RunIndexes(all);
    assert ChannelListed(Run(all).registry, Pairs(all), c);
  }
}
