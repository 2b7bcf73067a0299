/** The event hub (sse/sse.go): bounded fan-out of published events to the subscribers of a topic. */
module SseHub {
  import opened Prelude
  import opened SseEvent

  const DEFAULT_BUFFER := 16

  datatype Policy = DisconnectSlowConsumer | DropEvent

  /** A subscription: its channel, what its reader took out of it, and how often the channel was closed. */
  datatype Subscriber = Subscriber(topic: string, events: seq<Event>, open: bool, received: seq<Event>, closes: nat)

  type Registry = map<string, set<int>>

  /** The hub and every subscription ever handed out; no subscriber table means a closed hub. */
  datatype State = State(buffer: nat, policy: Policy, subscribers: Option<Registry>, all: map<int, Subscriber>)

  datatype Step =
    | Subscribe(id: int, topic: string, cancelled: bool)
    | Publish(topic: string, event: Event)
    | Receive(id: int)
    | Remove(id: int) // the subscription's context is cancelled
    | Close

  // ----- the registry -----

  function Topic(registry: Registry, topic: string): set<int> {
    if topic in registry then registry[topic] else {}
  }

  function WithTopic(registry: Registry, topic: string, ids: set<int>): Registry {
    if ids == {} then registry - {topic} else registry[topic := ids]
  }

  lemma WithTopicFacts(registry: Registry, topic: string, a: set<int>, b: set<int>)
    ensures Topic(WithTopic(registry, topic, a), topic) == a
    ensures WithTopic(WithTopic(registry, topic, a), topic, b) == WithTopic(registry, topic, b)
    ensures (topic in registry ==> registry[topic] != {}) ==>
        WithTopic(registry, topic, Topic(registry, topic)) == registry
  {
  }

  function Listeners(s: State, topic: string): set<int> {
    match s.subscribers
    case None => {}
    case Some(registry) => Topic(registry, topic)
  }

  predicate Registered(s: State, id: int) {
    id in s.all && id in Listeners(s, s.all[id].topic)
  }

  // ----- one step -----

  function Closed(sub: Subscriber): Subscriber {
    sub.(open := false, closes := sub.closes + 1)
  }

  function Offered(sub: Subscriber, event: Event, buffer: nat, policy: Policy): Subscriber {
    if |sub.events| < buffer then sub.(events := sub.events + [event])
    else if policy == DisconnectSlowConsumer then Closed(sub)
    else sub
  }

  predicate Full(s: State, id: int)
    requires id in s.all
  {
    |s.all[id].events| >= s.buffer
  }

  function SubscriberAfter(s: State, step: Step, id: int): Subscriber
    requires id in s.all
  {
    var sub := s.all[id];
    match step
    case Subscribe(_, _, _) => sub
    case Publish(topic, event) =>
      if ValidEvent(event) && id in Listeners(s, topic) then Offered(sub, event, s.buffer, s.policy) else sub
    case Receive(i) =>
      if i == id && sub.events != [] then sub.(events := sub.events[1..], received := sub.received + [sub.events[0]])
      else sub
    case Remove(i) => if i == id && Registered(s, id) then Closed(sub) else sub
    case Close => if Registered(s, id) then Closed(sub) else sub
  }

  function New(s: State, topic: string, cancelled: bool): Subscriber {
    if cancelled || s.subscribers == None then Subscriber(topic, [], false, [], 1)
    else Subscriber(topic, [], true, [], 0)
  }

  function RegistryAfter(s: State, step: Step): Option<Registry> {
    if s.subscribers == None then None
    else
      var registry := s.subscribers.value;
      match step
      case Subscribe(id, topic, cancelled) =>
        Some(if cancelled then registry else registry[topic := Topic(registry, topic) + {id}])
      case Publish(topic, event) =>
        if ValidEvent(event) && s.policy == DisconnectSlowConsumer
        then Some(WithTopic(registry, topic, set i | i in Topic(registry, topic) && i in s.all && !Full(s, i)))
        else Some(registry)
      case Receive(_) => Some(registry)
      case Remove(id) =>
        if Registered(s, id)
        then Some(WithTopic(registry, s.all[id].topic, Topic(registry, s.all[id].topic) - {id}))
        else Some(registry)
      case Close => None
  }

  function Apply(s: State, step: Step): State {
    var before := map i | i in s.all :: SubscriberAfter(s, step, i);
    State(s.buffer, s.policy, RegistryAfter(s, step),
          if step.Subscribe? then before[step.id := New(s, step.topic, step.cancelled)] else before)
  }

  /** A new subscription is a new object, and a reader takes only what is there. */
  predicate Legal(s: State, step: Step) {
    match step
    case Subscribe(id, _, _) => id !in s.all
    case Publish(_, _) => true
    case Receive(id) => id in s.all && s.all[id].events != []
    case Remove(id) => id in s.all
    case Close => true
  }

  /** The number PublishTopic returns. */
  function Accepting(s: State, topic: string, event: Event): set<int> {
    if ValidEvent(event) then set i | i in Listeners(s, topic) && i in s.all && !Full(s, i) else {}
  }

  // ----- what every step keeps -----

  predicate SubscriberOk(s: State, id: int)
    requires id in s.all
  {
    var sub := s.all[id];
    && (sub.open <==> Registered(s, id))
    && sub.closes == (if sub.open then 0 else 1)
    && |sub.events| <= s.buffer
  }

  predicate Inv(s: State) {
    && s.buffer > 0
    && (forall id :: id in s.all ==> SubscriberOk(s, id))
    && (s.subscribers.Some? ==>
          forall topic :: topic in s.subscribers.value ==>
            && s.subscribers.value[topic] != {}
            && forall id :: id in s.subscribers.value[topic] ==> id in s.all && s.all[id].topic == topic)
  }
}
