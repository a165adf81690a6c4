/** The registry of WebSocket clients and the bounded queues balances are pushed to (internal/websocket/hub.go). */
module Hubs {

  datatype BalanceUpdate = BalanceUpdate(accountId: string, balance: string, currency: string)

  /** The capacity of a client's channel. */
  const CAPACITY: nat := 10

  /** A non-blocking send: a full queue drops the message. */
  function Deliver(queue: seq<BalanceUpdate>, update: BalanceUpdate): seq<BalanceUpdate> {
    if |queue| < CAPACITY then queue + [update] else queue
  }

  // --------------------------------------------------------------- a client's queue

  /** What happens to a client's queue: updates pushed to it, and messages its write pump takes. */
  datatype QueueEvent = Pushed(update: BalanceUpdate) | Taken

  function QueueAfter(events: seq<QueueEvent>): seq<BalanceUpdate> {
    if events == [] then []
    else
      var queue := QueueAfter(events[..|events| - 1]);
      match events[|events| - 1]
      case Pushed(update) => Deliver(queue, update)
      case Taken => if queue == [] then [] else queue[1..]
  }

  /** The updates pushed, in order. */
  function Pushes(events: seq<QueueEvent>): seq<BalanceUpdate> {
    if events == [] then []
    else
      Pushes(events[..|events| - 1]) +
      match events[|events| - 1]
      case Pushed(update) => [update]
      case Taken => []
  }

  lemma EventAppended(events: seq<QueueEvent>, event: QueueEvent)
    ensures QueueAfter(events + [event]) ==
            match event
            case Pushed(update) => Deliver(QueueAfter(events), update)
            case Taken => if QueueAfter(events) == [] then [] else QueueAfter(events)[1..]
    ensures Pushes(events + [event]) == Pushes(events) + if event.Pushed? then [event.update] else []
  {
    assert (events + [event])[..|events + [event]| - 1] == events;
  }

  /** The messages the write pump has taken off the queue, in order. */
  function TakenOff(events: seq<QueueEvent>): seq<BalanceUpdate> {
    if events == [] then []
    else
      var queue := QueueAfter(events[..|events| - 1]);
      TakenOff(events[..|events| - 1]) + if events[|events| - 1].Taken? && queue != [] then [queue[0]] else []
  }

  lemma TakenAppended(events: seq<QueueEvent>, event: QueueEvent)
    ensures TakenOff(events + [event]) ==
            TakenOff(events) + if event.Taken? && QueueAfter(events) != [] then [QueueAfter(events)[0]] else []
  {
    assert (events + [event])[..|events + [event]| - 1] == events;
  }

  /** Every update was pushed while fewer than ten messages waited. */
  ghost predicate NeverFull(events: seq<QueueEvent>) {
    forall i | 0 <= i < |events| && events[i].Pushed? :: |QueueAfter(events[..i])| < 10
  }

  lemma NeverFullAppended(events: seq<QueueEvent>, event: QueueEvent)
    ensures NeverFull(events + [event]) <==> NeverFull(events) && (event.Pushed? ==> |QueueAfter(events)| < 10)
  {
    hide QueueAfter;
    var all := events + [event];
    assert all[|events|] == event && all[..|events|] == events;
    assert forall i | 0 <= i < |events| :: all[i] == events[i] && all[..i] == events[..i];
  }

  /** What was taken and what still waits is everything pushed exactly when no push met a full queue. */
  lemma {:induction false} NothingDropped(events: seq<QueueEvent>)
    ensures |TakenOff(events)| + |QueueAfter(events)| <= |Pushes(events)|
    ensures TakenOff(events) + QueueAfter(events) == Pushes(events) <==> NeverFull(events)
  {
    if events != [] {
      var front, last := events[..|events| - 1], events[|events| - 1];
      assert events == front + [last];
      NothingDropped(front);
      NeverFullAppended(front, last);
      EventAppended(front, last);
      TakenAppended(front, last);
      EventDrops(TakenOff(front), QueueAfter(front), Pushes(front), last);
    }
  }

  /** One event more: taking moves a message, a push with room adds one to both sides, and a full queue loses one. */
  lemma EventDrops(
    taken: seq<BalanceUpdate>, queue: seq<BalanceUpdate>, pushes: seq<BalanceUpdate>, event: QueueEvent)
    requires |taken| + |queue| <= |pushes|
    ensures match event
            case Taken =>
              && (queue != [] ==> (taken + [queue[0]]) + queue[1..] == taken + queue)
              && taken + [] == taken && pushes + [] == pushes
            case Pushed(update) =>
              && (taken + Deliver(queue, update) == pushes + [update] <==> taken + queue == pushes && |queue| < 10)
              && |taken| + |Deliver(queue, update)| <= |pushes + [update]|
  {
    if event.Pushed? {
      assert taken + (queue + [event.update]) == (taken + queue) + [event.update];
      if |queue| < CAPACITY && taken + Deliver(queue, event.update) == pushes + [event.update] {
        var all := taken + Deliver(queue, event.update);
        assert all[..|all| - 1] == taken + queue && (pushes + [event.update])[..|pushes|] == pushes;
      }
    }
  }

  /** The queue holds some of the updates, in the order in which they came. */
  ghost predicate InOrder(updates: seq<BalanceUpdate>, queue: seq<BalanceUpdate>, indices: seq<nat>) {
    && |indices| == |queue|
    && (forall i | 0 <= i < |queue| :: indices[i] < |updates| && updates[indices[i]] == queue[i])
    && (forall i, j | 0 <= i < j < |queue| :: indices[i] < indices[j])
  }

  /** A queue never exceeds its capacity and holds its messages in the order they were pushed. */
  lemma {:induction false} QueueInOrder(events: seq<QueueEvent>) returns (indices: seq<nat>)
    ensures |QueueAfter(events)| <= CAPACITY
    ensures InOrder(Pushes(events), QueueAfter(events), indices)
  {
    if events == [] {
      indices := [];
    } else {
      var front, last := events[..|events| - 1], events[|events| - 1];
      indices := QueueInOrder(front);
      indices := EventInOrder(Pushes(front), QueueAfter(front), indices, last);
    }
  }

  lemma EventInOrder(
    updates: seq<BalanceUpdate>, queue: seq<BalanceUpdate>, before: seq<nat>, event: QueueEvent)
    returns (indices: seq<nat>)
    requires |queue| <= CAPACITY && InOrder(updates, queue, before)
    ensures match event
            case Pushed(update) => InOrder(updates + [update], Deliver(queue, update), indices)
            case Taken => InOrder(updates, if queue == [] then [] else queue[1..], indices)
  {
    indices := before;
    match event
    case Taken =>
      if queue != [] {
        indices := indices[1..];
      }
    case Pushed(update) =>
      if |queue| < CAPACITY {
        indices := indices + [|updates|];
      }
  }

  class Client {
    var send: seq<BalanceUpdate>
    ghost var events: seq<QueueEvent>

    ghost predicate Valid()
      reads this
    {
      send == QueueAfter(events)
    }

    constructor ()
      ensures Valid() && send == [] && events == []
    {
      send := [];
      events := [];
    }

    /** The write pump takes the oldest message; what was pushed stays on record. */
    method Receive() returns (update: BalanceUpdate)
      requires Valid() && send != []
      modifies this
      ensures Valid() && events == old(events) + [Taken] && Pushes(events) == old(Pushes(events))
      ensures [update] + send == old(send)
      ensures TakenOff(events) == old(TakenOff(events)) + [update]
    {
      EventAppended(events, Taken);
      TakenAppended(events, Taken);
      update := send[0];
      send := send[1..];
      events := events + [Taken];
    }

    /** The hub's non-blocking send: appended while fewer than ten messages wait, and dropped otherwise. */
    method Push(update: BalanceUpdate)
      requires Valid()
      modifies this
      ensures Valid() && events == old(events) + [Pushed(update)]
      ensures Pushes(events) == old(Pushes(events)) + [update]
      ensures TakenOff(events) == old(TakenOff(events))
      ensures send == if |old(send)| < 10 then old(send) + [update] else old(send)
    {
      EventAppended(events, Pushed(update));
      TakenAppended(events, Pushed(update));
      if |send| < CAPACITY {
        send := send + [update];
      }
      events := events + [Pushed(update)];
    }
  }

  // --------------------------------------------------------------- the calls made on a hub

  datatype Call =
    | RegisterCall(userId: string, client: Client)
    | UnregisterCall(userId: string, client: Client)
    | BroadcastCall(userId: string, update: BalanceUpdate)

  /** Registered at some point, and not unregistered since. */
  ghost predicate Active(calls: seq<Call>, userId: string, older client: Client) {
    exists i | 0 <= i < |calls| ::
      && calls[i] == RegisterCall(userId, client)
      && forall j | i < j < |calls| :: calls[j] != UnregisterCall(userId, client)
  }

  lemma ActiveAppended(calls: seq<Call>, call: Call, userId: string, client: Client)
    ensures Active(calls + [call], userId, client) <==>
            || call == RegisterCall(userId, client)
            || (Active(calls, userId, client) && call != UnregisterCall(userId, client))
  {
    var all := calls + [call];
    if call == RegisterCall(userId, client) {
      assert all[|calls|] == RegisterCall(userId, client);
    }
    if Active(calls, userId, client) && call != UnregisterCall(userId, client) {
      var i :| 0 <= i < |calls| && calls[i] == RegisterCall(userId, client)
               && forall j | i < j < |calls| :: calls[j] != UnregisterCall(userId, client);
      assert all[i] == RegisterCall(userId, client);
    }
    if Active(all, userId, client) {
      var i :| 0 <= i < |all| && all[i] == RegisterCall(userId, client)
               && forall j | i < j < |all| :: all[j] != UnregisterCall(userId, client);
      if i < |calls| {
        assert all[|calls|] == call;
        assert calls[i] == RegisterCall(userId, client);
        forall j | i < j < |calls| ensures calls[j] != UnregisterCall(userId, client) {
          assert all[j] == calls[j];
        }
      }
    }
  }

  /** The updates broadcast to a client while it was registered for the user, in the order of the calls. */
  ghost function Reaching(calls: seq<Call>, client: Client): seq<BalanceUpdate> {
    if calls == [] then []
    else
      var front, last := calls[..|calls| - 1], calls[|calls| - 1];
      if last.BroadcastCall? && Active(front, last.userId, client) then Reaching(front, client) + [last.update]
      else Reaching(front, client)
  }

  lemma ReachingAppended(calls: seq<Call>, call: Call, client: Client)
    ensures Reaching(calls + [call], client) ==
            if call.BroadcastCall? && Active(calls, call.userId, client) then Reaching(calls, client) + [call.update]
            else Reaching(calls, client)
  {
    assert (calls + [call])[..|calls + [call]| - 1] == calls;
  }

  /** A client that was never registered was reached by nothing. */
  lemma {:induction false} NeverReached(calls: seq<Call>, client: Client)
    requires forall i | 0 <= i < |calls| && calls[i].RegisterCall? :: calls[i].client != client
    ensures Reaching(calls, client) == []
  {
    if calls != [] {
      NeverReached(calls[..|calls| - 1], client);
    }
  }

  /** The nested map after a client is removed: an inner map left empty goes too. */
  function Removed(clients: map<string, set<Client>>, userId: string, client: Client): map<string, set<Client>> {
    if userId !in clients then clients
    else if clients[userId] - {client} == {} then clients - {userId}
    else clients[userId := clients[userId] - {client}]
  }

  /** The nested map holds exactly the active pairs, and no empty inner map. */
  ghost predicate Holds(clients: map<string, set<Client>>, calls: seq<Call>) {
    && (forall u, c | Active(calls, u, c) :: u in clients && c in clients[u])
    && (forall u, c | u in clients && c in clients[u] :: Active(calls, u, c))
    && (forall u | u in clients :: clients[u] != {})
  }

  lemma HoldsAfterRegister(clients: map<string, set<Client>>, calls: seq<Call>, userId: string, client: Client)
    requires Holds(clients, calls)
    ensures var inner := (if userId in clients then clients[userId] else {}) + {client};
            Holds(clients[userId := inner], calls + [RegisterCall(userId, client)])
  {
    var call := RegisterCall(userId, client);
    var after := clients[userId := (if userId in clients then clients[userId] else {}) + {client}];
    forall u, c ensures Active(calls + [call], u, c) <==> u in after && c in after[u] {
      ActiveAppended(calls, call, u, c);
    }
    hide Active;
  }

  lemma HoldsAfterUnregister(clients: map<string, set<Client>>, calls: seq<Call>, userId: string, client: Client)
    requires Holds(clients, calls)
    ensures Holds(Removed(clients, userId, client), calls + [UnregisterCall(userId, client)])
  {
    var call := UnregisterCall(userId, client);
    var after := Removed(clients, userId, client);
    forall u, c ensures Active(calls + [call], u, c) <==> u in after && c in after[u] {
      ActiveAppended(calls, call, u, c);
      RemovedPairs(clients, userId, client, u, c);
    }
    hide Active;
  }

  lemma RemovedPairs(clients: map<string, set<Client>>, userId: string, client: Client, u: string, c: Client)
    ensures var after := Removed(clients, userId, client);
            u in after && c in after[u] <==> u in clients && c in clients[u] && (u, c) != (userId, client)
  {
    if userId in clients && u == userId && c != client && c in clients[userId] {
      assert c in clients[userId] - {client};
    }
  }

  lemma HoldsAfterBroadcast(clients: map<string, set<Client>>, calls: seq<Call>, userId: string, update: BalanceUpdate)
    requires Holds(clients, calls)
    ensures Holds(clients, calls + [BroadcastCall(userId, update)])
  {
    var call := BroadcastCall(userId, update);
    forall u, c ensures Active(calls + [call], u, c) <==> Active(calls, u, c) {
      ActiveAppended(calls, call, u, c);
    }
    hide Active;
  }

  class Hub {
    var clients: map<string, set<Client>>
    ghost var calls: seq<Call>
    ghost var known: set<Client>

    /**
     The map holds the active pairs; every client ever registered has been pushed exactly the updates
     broadcast to it while it was registered, in the order of the calls.
     */
    ghost predicate Valid()
      reads this, known
    {
      && Holds(clients, calls)
      && (forall i | 0 <= i < |calls| && calls[i].RegisterCall? :: calls[i].client in known)
      && (forall u | u in clients :: clients[u] <= known)
      && (forall c | c in known :: c.Valid() && Pushes(c.events) == Reaching(calls, c))
    }

    /** A user's clients; ranging over a missing inner map is ranging over nothing. */
    function Members(userId: string): set<Client>
      reads this
    {
      if userId in clients then clients[userId] else {}
    }

    constructor ()
      ensures Valid() && clients == map[] && calls == [] && known == {}
    {
      clients := map[];
      calls := [];
      known := {};
    }

    method Register(userId: string, client: Client)
      requires Valid() && client.Valid() && (client !in known ==> Pushes(client.events) == [])
      modifies this
      ensures Valid() && calls == old(calls) + [RegisterCall(userId, client)] && known == old(known) + {client}
      ensures Members(userId) == old(Members(userId)) + {client}
      ensures forall u | u != userId :: Members(u) == old(Members(u))
    {
      hide Holds, Reaching, QueueAfter, Pushes;
      ghost var call, before := RegisterCall(userId, client), clients;
      HoldsAfterRegister(clients, calls, userId, client);
      if client !in known {
        NeverReached(calls, client);
      }
      if userId !in clients {
        clients := clients[userId := {}];
      }
      clients := clients[userId := clients[userId] + {client}];
      assert clients == before[userId := (if userId in before then before[userId] else {}) + {client}];
      forall c ensures Reaching(calls + [call], c) == Reaching(calls, c) {
        ReachingAppended(calls, call, c);
      }
      calls := calls + [call];
      known := known + {client};
    }

    method Unregister(userId: string, client: Client)
      requires Valid()
      modifies this
      ensures Valid() && calls == old(calls) + [UnregisterCall(userId, client)] && known == old(known)
      ensures Members(userId) == old(Members(userId)) - {client}
      ensures forall u | u != userId :: Members(u) == old(Members(u))
      ensures client !in old(Members(userId)) ==> clients == old(clients)
    {
      hide Holds, Reaching, QueueAfter, Pushes;
      ghost var call, before := UnregisterCall(userId, client), clients;
      HoldsAfterUnregister(clients, calls, userId, client);
      InnerNotEmpty(clients, calls);
      if userId in clients {
        clients := clients[userId := clients[userId] - {client}];
        if clients[userId] == {} {
          clients := clients - {userId};
        }
      }
      assert clients == Removed(before, userId, client);
      assert client !in old(Members(userId)) && userId in before ==> before[userId] - {client} == before[userId];
      forall c ensures Reaching(calls + [call], c) == Reaching(calls, c) {
        ReachingAppended(calls, call, c);
      }
      calls := calls + [call];
    }

    /** Each of the user's clients gets the update if its queue has room; no other queue changes. */
    method BroadcastBalance(userId: string, update: BalanceUpdate)
      requires Valid()
      modifies this`calls, Members(userId)
      ensures Valid() && calls == old(calls) + [BroadcastCall(userId, update)]
      ensures forall c | c in Members(userId) ::
                c.send == if |old(c.send)| < 10 then old(c.send) + [update] else old(c.send)
      ensures forall c | c in Members(userId) :: c.events == old(c.events) + [Pushed(update)]
    {
      hide Holds, Reaching, QueueAfter, Pushes, Active;
      HoldsAfterBroadcast(clients, calls, userId, update);
      MembersAreActive(clients, calls, userId);
      var rest := Members(userId);
      while rest != {}
        invariant rest <= Members(userId)
        invariant forall c | c in rest :: c.send == old(c.send) && c.events == old(c.events)
        invariant forall c | c in Members(userId) - rest ::
                    && c.send == Deliver(old(c.send), update) && c.events == old(c.events) + [Pushed(update)]
                    && Pushes(c.events) == old(Pushes(c.events)) + [update]
        invariant forall c | c in known :: c.Valid()
        invariant calls == old(calls)
        decreases rest
      {
        var client :| client in rest;
        client.Push(update);
        rest := rest - {client};
      }
      ghost var call := BroadcastCall(userId, update);
      forall c | c in known ensures Pushes(c.events) == Reaching(calls + [call], c) {
        ReachingAppended(calls, call, c);
      }
      calls := calls + [call];
    }
  }

  lemma InnerNotEmpty(clients: map<string, set<Client>>, calls: seq<Call>)
    requires Holds(clients, calls)
    ensures forall u | u in clients :: clients[u] != {}
  {
  }

  lemma MembersAreActive(clients: map<string, set<Client>>, calls: seq<Call>, userId: string)
    requires Holds(clients, calls)
    ensures forall c :: Active(calls, userId, c) <==> userId in clients && c in clients[userId]
  {
  }

  // --------------------------------------------------------------- what holds after any sequence of calls

  /**
   Whatever was called on a hub, the queue of a client it ever knew holds at most ten messages, and they are
   updates broadcast to it while it was registered, in the order of the broadcasts.
   */
  lemma QueuesAreBoundedAndOrdered(hub: Hub, client: Client) returns (indices: seq<nat>)
    requires hub.Valid() && client in hub.known
    ensures |client.send| <= 10
    ensures InOrder(Reaching(hub.calls, client), client.send, indices)
  {
    hide Holds, Reaching, QueueAfter, Pushes, InOrder;
    indices := QueueInOrder(client.events);
  }

  /**
   No broadcast is lost on the way to a client, whatever was called: what its write pump took and what still waits
   are all the updates broadcast to it while it was registered, exactly when none of them met a full queue.
   */
  lemma EveryUpdateArrives(hub: Hub, client: Client)
    requires hub.Valid() && client in hub.known
    ensures TakenOff(client.events) + client.send == Reaching(hub.calls, client) <==> NeverFull(client.events)
  {
    hide Holds, Reaching, QueueAfter, Pushes, TakenOff, NeverFull;
    NothingDropped(client.events);
  }

  /** Registering and unregistering again leaves the hub as it was; unregistering twice is unregistering once. */
  lemma UnregisterUndoes(calls: seq<Call>, userId: string, client: Client, u: string, c: Client)
    requires !Active(calls, userId, client)
    ensures var registered := calls + [RegisterCall(userId, client)];
            var undone := registered + [UnregisterCall(userId, client)];
            && (Active(undone, u, c) <==> Active(calls, u, c))
            && (Active(undone + [UnregisterCall(userId, client)], u, c) <==> Active(undone, u, c))
  {
    hide Active;
    var registered := calls + [RegisterCall(userId, client)];
    var undone := registered + [UnregisterCall(userId, client)];
    ActiveAppended(calls, RegisterCall(userId, client), u, c);
    ActiveAppended(registered, UnregisterCall(userId, client), u, c);
    ActiveAppended(undone, UnregisterCall(userId, client), u, c);
  }
}
