/** The hub as the object its callers use: each method is one step taken under the lock. */
module SseHubService {
  import opened Prelude
  import opened SseEvent
  import opened SseHub
  import SseHubTheorems

  /** Map iteration: any key, in no particular order. */
  method Pick<K(==)>(keys: set<K>) returns (k: K)
    requires keys != {}
    ensures k in keys
  {
    k :| k in keys;
  }

  /** The hub after one subscription was offered an event. */
  ghost function OfferedOne(t: State, id: int, event: Event): State
    requires Registered(t, id)
  {
    t.(all := t.all[id := Offered(t.all[id], event, t.buffer, t.policy)],
       subscribers :=
         if Full(t, id) && t.policy == DisconnectSlowConsumer
         then Some(WithTopic(t.subscribers.value, t.all[id].topic, Listeners(t, t.all[id].topic) - {id}))
         else t.subscribers)
  }

  ghost function Left(s: State, topic: string, pending: set<int>): set<int> {
    set i | i in Listeners(s, topic) && i in s.all && (i in pending || !Full(s, i))
  }

  /** Part of the way through PublishTopic's loop: all listeners but the pending ones were offered the event. */
  ghost predicate Partway(s: State, t: State, topic: string, event: Event, pending: set<int>) {
    && s.subscribers.Some? && t.buffer == s.buffer && t.policy == s.policy && t.all.Keys == s.all.Keys
    && (forall i :: i in s.all ==>
         t.all[i] == if i in Listeners(s, topic) &&
             i !in pending then Offered(s.all[i], event, s.buffer, s.policy) else s.all[i])
    && t.subscribers == Some(
         if s.policy == DropEvent then s.subscribers.value
         else WithTopic(s.subscribers.value, topic, Left(s, topic, pending)))
  }

  lemma PartwayStart(s: State, topic: string, event: Event)
    requires Inv(s) && s.subscribers.Some?
    ensures Partway(s, s, topic, event, Listeners(s, topic))
    ensures Accepting(s, topic, event) - Listeners(s, topic) == {}
  {
    forall i | i in Listeners(s, topic) ensures i in s.all {
      assert i in s.subscribers.value[topic];
    }
    assert Left(s, topic, Listeners(s, topic)) == Listeners(s, topic);
    WithTopicFacts(s.subscribers.value, topic, {}, {});
  }

  lemma PartwayStep(s: State, t: State, topic: string, event: Event, pending: set<int>, id: int)
    requires Inv(s) && ValidEvent(event) && Partway(s, t, topic, event, pending) && id in pending
    requires pending <= Listeners(s, topic)
    ensures Registered(t, id) && t.all[id] == s.all[id] && s.all[id].open
    ensures Partway(s, OfferedOne(t, id, event), topic, event, pending - {id})
    ensures Accepting(s, topic, event) - (pending - {id})
         == Accepting(s, topic, event) - pending + if Full(s, id) then {} else {id}
  {
    assert SubscriberOk(s, id);
    var left := Left(s, topic, pending);
    WithTopicFacts(s.subscribers.value, topic, left, left - {id});
    assert Left(s, topic, pending - {id}) == if Full(s, id) then left - {id} else left;
  }

  lemma PartwayDone(s: State, t: State, topic: string, event: Event)
    requires ValidEvent(event) && Partway(s, t, topic, event, {})
    ensures t == Apply(s, SseHub.Publish(topic, event))
    ensures Accepting(s, topic, event) - {} == Accepting(s, topic, event)
  {
    var next := Apply(s, SseHub.Publish(topic, event));
    assert Left(s, topic, {}) == set i | i in Listeners(s, topic) && i in s.all && !Full(s, i);
    assert t.subscribers == next.subscribers;
    assert t.all == next.all;
  }

  class Hub {
    const buffer: nat
    const policy: Policy
    var subscribers: Option<Registry>
    var all: map<int, Subscriber>

    ghost function View(): State
      reads this
    {
      State(buffer, policy, subscribers, all)
    }

    constructor (buffer: nat, policy: Policy)
      requires buffer > 0
      ensures View() == State(buffer, policy, Some(map[]), map[]) && Inv(View())
    {
      this.buffer := buffer;
      this.policy := policy;
      subscribers := Some(map[]);
      all := map[];
    }

    /** close(subscription.events): closing a closed channel would be a runtime panic. */
    method CloseChannel(id: int)
      requires id in all && all[id].open
      modifies this`all
      ensures all == old(all)[id := Closed(old(all)[id])]
    {
      all := all[id := Closed(all[id])];
    }

    method SubscribeTopic(id: int, topic: string, cancelled: bool)
      requires Inv(View()) && Legal(View(), SseHub.Subscribe(id, topic, cancelled))
      modifies this
      ensures View() == Apply(old(View()), SseHub.Subscribe(id, topic, cancelled))
      ensures id in all && all[id].events == [] && (all[id].open <==> !cancelled && old(subscribers).Some?)
      ensures Registered(View(), id) <==> !cancelled && old(subscribers).Some?
    {
      SseHubTheorems.SubscribedIff(View(), id, topic, cancelled);
      all := all[id := Subscriber(topic, [], true, [], 0)];
      if cancelled {
        CloseChannel(id);
        return;
      }
      if subscribers == None {
        CloseChannel(id);
        return;
      }
      var registry := subscribers.value;
      if topic !in registry {
        registry := registry[topic := {}];
      }
      registry := registry[topic := registry[topic] + {id}];
      subscribers := Some(registry);
      ghost var next := Apply(old(View()), SseHub.Subscribe(id, topic, cancelled));
      assert {} + {id} == {id};
      assert registry == next.subscribers.value;
      assert all == next.all;
    }

    /** The reader takes one event, also from a closed channel that still holds some. */
    method Receive(id: int) returns (event: Event)
      requires Inv(View()) && Legal(View(), SseHub.Receive(id))
      modifies this`all
      ensures View() == Apply(old(View()), SseHub.Receive(id)) && event == old(all)[id].events[0]
    {
      var sub := all[id];
      event := sub.events[0];
      all := all[id := sub.(events := sub.events[1..], received := sub.received + [event])];
    }

    method DisconnectLocked(id: int)
      requires id in all && (Registered(View(), id) ==> all[id].open)
      modifies this
      ensures if old(Registered(View(), id)) then
          && all == old(all)[id := Closed(old(all)[id])]
          && subscribers == Some(WithTopic(old(subscribers).value, old(all)[id].topic,
                                           Topic(old(subscribers).value, old(all)[id].topic) - {id}))
        else View() == old(View())
    {
      if subscribers == None {
        return;
      }
      var registry := subscribers.value;
      var topic := all[id].topic;
      if topic !in registry || id !in registry[topic] {
        return;
      }
      registry := registry[topic := registry[topic] - {id}];
      assert registry - {topic} == old(subscribers).value - {topic};
      if registry[topic] == {} {
        registry := registry - {topic};
      }
      subscribers := Some(registry);
      CloseChannel(id);
    }

    method Remove(id: int)
      requires Inv(View()) && Legal(View(), SseHub.Remove(id))
      modifies this
      ensures View() == Apply(old(View()), SseHub.Remove(id))
    {
      assert SubscriberOk(View(), id);
      DisconnectLocked(id);
    }

    /** The select statement of PublishTopic for one subscription. */
    method Offer(id: int, event: Event) returns (accepted: bool)
      requires Registered(View(), id) && all[id].open
      modifies this
      ensures View() == OfferedOne(old(View()), id, event) && accepted == (|old(all)[id].events| < buffer)
    {
      if |all[id].events| < buffer {
        all := all[id := all[id].(events := all[id].events + [event])];
        return true;
      }
      if policy == DisconnectSlowConsumer {
        DisconnectLocked(id);
      } else {
        assert all == all[id := all[id]];
      }
      return false;
    }

    method PublishTopic(topic: string, event: Event) returns (r: Option<nat>)
      requires Inv(View())
      modifies this
      ensures View() == Apply(old(View()), SseHub.Publish(topic, event))
      ensures r == if ValidEvent(event) then Some(|Accepting(old(View()), topic, event)|) else None
    {
      if !ValidEvent(event) {
        return None;
      }
      if subscribers == None {
        return Some(0);
      }
      ghost var s := View();
      var pending := Topic(subscribers.value, topic);
      var delivered := 0;
      PartwayStart(s, topic, event);
      while pending != {}
        invariant pending <= Listeners(s, topic)
        invariant delivered == |Accepting(s, topic, event) - pending|
        invariant Partway(s, View(), topic, event, pending)
        decreases |pending|
      {
        var id := Pick(pending);
        PartwayStep(s, View(), topic, event, pending, id);
        var accepted := Offer(id, event);
        if accepted {
          delivered := delivered + 1;
        }
        pending := pending - {id};
      }
      PartwayDone(s, View(), topic, event);
      return Some(delivered);
    }

    /** The inner loop of Close: every channel of one topic. */
    method CloseTopic(ghost s: State, topic: string, ghost topics: set<string>)
      requires Inv(s) && subscribers == s.subscribers && s.subscribers.Some? && topic in topics
      requires topics <= s.subscribers.value.Keys
      requires all.Keys == s.all.Keys
      requires forall i :: i in s.all ==>
        all[i] == if Registered(s, i) && s.all[i].topic !in topics then Closed(s.all[i]) else s.all[i]
      modifies this`all
      ensures all.Keys == s.all.Keys
      ensures forall i :: i in s.all ==>
        all[i] == if Registered(s, i) && s.all[i].topic !in topics - {topic} then Closed(s.all[i]) else s.all[i]
    {
      var ids := subscribers.value[topic];
      var pending := ids;
      while pending != {}
        invariant pending <= ids
        invariant all.Keys == s.all.Keys
        invariant forall i :: i in s.all ==>
          all[i] == if Registered(s, i) && (s.all[i].topic !in topics || (i in ids && i !in pending))
                    then Closed(s.all[i]) else s.all[i]
        decreases |pending|
      {
        var id := Pick(pending);
        assert SubscriberOk(s, id);
        CloseChannel(id);
        pending := pending - {id};
      }
    }

    method Close()
      requires Inv(View())
      modifies this
      ensures View() == Apply(old(View()), SseHub.Close)
    {
      if subscribers == None {
        return;
      }
      ghost var s := View();
      var registry := subscribers.value;
      var topics := registry.Keys;
      while topics != {}
        invariant topics <= registry.Keys
        invariant subscribers == s.subscribers && all.Keys == s.all.Keys
        invariant forall i :: i in s.all ==>
          all[i] == if Registered(s, i) && s.all[i].topic !in topics then Closed(s.all[i]) else s.all[i]
        decreases |topics|
      {
        var topic :| topic in topics;
        CloseTopic(s, topic, topics);
        topics := topics - {topic};
      }
      subscribers := None;
    }
  }

  datatype Config = Config(subscriberBuffer: int, slowConsumer: int, heartbeat: int, writeTimeout: int)

  datatype ConfigError = NegativeBuffer | NegativeHeartbeat | NegativeWriteTimeout | UnknownPolicy

  /** NewHub: every hub it returns has room for at least one event in each channel. */
  method NewHub(config: Config) returns (r: Result<Hub, ConfigError>)
    ensures r.Ok? <==>
      config.subscriberBuffer >= 0 && config.heartbeat >= 0 && config.writeTimeout >= 0 && 0 <= config.slowConsumer <= 1
    ensures r.Ok? ==>
      && fresh(r.value) && Inv(r.value.View())
      && r.value.View() == State(
           if config.subscriberBuffer == 0 then DEFAULT_BUFFER else config.subscriberBuffer,
           if config.slowConsumer == 0 then DisconnectSlowConsumer else DropEvent, Some(map[]), map[])
  {
    if config.subscriberBuffer < 0 {
      return Err(NegativeBuffer);
    }
    var buffer := config.subscriberBuffer;
    if buffer == 0 {
      buffer := DEFAULT_BUFFER;
    }
    if config.heartbeat < 0 {
      return Err(NegativeHeartbeat);
    }
    if config.writeTimeout < 0 {
      return Err(NegativeWriteTimeout);
    }
    if config.slowConsumer != 0 && config.slowConsumer != 1 {
      return Err(UnknownPolicy);
    }
    var hub := new Hub(buffer, if config.slowConsumer == 0 then DisconnectSlowConsumer else DropEvent);
    return Ok(hub);
  }
}
