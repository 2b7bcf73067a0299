/** What the hub delivers over whole runs. */
module SseHubTheorems {
  import opened Prelude
  import opened SseEvent
  import opened SseHub

  predicate Init(s: State) {
    s.buffer > 0 && s.subscribers == Some(map[]) && s.all == map[]
  }

  predicate LegalRun(s: State, steps: seq<Step>)
    decreases |steps|
  {
    steps == [] || (Legal(s, steps[0]) && LegalRun(Apply(s, steps[0]), steps[1..]))
  }

  function After(s: State, steps: seq<Step>): State
    decreases |steps|
  {
    if steps == [] then s else After(Apply(s, steps[0]), steps[1..])
  }

  // ----- the invariant -----

  lemma WithTopicHas(registry: Registry, topic: string, ids: set<int>, other: string)
    ensures Topic(WithTopic(registry, topic, ids), other) == if other == topic then ids else Topic(registry, other)
  {
  }

  /** Who is registered after a step: a new subscription joins, and only an ending step takes one away. */
  predicate Ends(s: State, step: Step, id: int)
    requires id in s.all
  {
    || step.Close?
    || (step.Remove? && step.id == id)
    || (step.Publish? && ValidEvent(step.event) && step.topic == s.all[id].topic &&
        s.policy == DisconnectSlowConsumer && Full(s, id))
  }

  lemma RegisteredAfter(s: State, step: Step, id: int)
    requires Inv(s) && Legal(s, step) && id in s.all
    ensures Registered(Apply(s, step), id) <==> Registered(s, id) && !Ends(s, step, id)
  {
    if s.subscribers.Some? {
      var registry := s.subscribers.value;
      var topic := s.all[id].topic;
      match step
      case Publish(t, event) =>
        WithTopicHas(registry, t, (set i | i in Topic(registry, t) && i in s.all && !Full(s, i)), topic);
      case Remove(i) =>
        WithTopicHas(registry, s.all[i].topic, Topic(registry, s.all[i].topic) - {i}, topic);
      case _ =>
    }
  }

  lemma NewRegistered(s: State, id: int, topic: string, cancelled: bool)
    requires Inv(s) && id !in s.all
    ensures SubscriberOk(Apply(s, Subscribe(id, topic, cancelled)), id)
  {
    if s.subscribers.Some? && topic in s.subscribers.value {
      assert id !in s.subscribers.value[topic];
    }
  }

  lemma SubscriberStays(s: State, step: Step, id: int)
    requires Inv(s) && Legal(s, step) && id in s.all
    ensures SubscriberOk(Apply(s, step), id)
  {
    RegisteredAfter(s, step, id);
    assert SubscriberOk(s, id);
    if step.Publish? && id in Listeners(s, step.topic) {
      assert id in s.subscribers.value[step.topic];
    }
  }

  lemma RegistryStays(s: State, step: Step, topic: string, id: int)
    requires Inv(s) && Legal(s, step)
    requires id in Listeners(Apply(s, step), topic)
    ensures id in Apply(s, step).all && Apply(s, step).all[id].topic == topic
  {
    var registry := s.subscribers.value;
    match step {
      case Publish(t, event) =>
        WithTopicHas(registry, t, (set i | i in Topic(registry, t) && i in s.all && !Full(s, i)), topic);
      case Remove(i) =>
        WithTopicHas(registry, s.all[i].topic, Topic(registry, s.all[i].topic) - {i}, topic);
      case _ =>
    }
    if step != Subscribe(id, topic, false) {
      assert id in registry[topic];
    }
  }

  lemma NoEmptyTopic(s: State, step: Step, topic: string)
    requires Inv(s) && Legal(s, step)
    requires Apply(s, step).subscribers.Some? && topic in Apply(s, step).subscribers.value
    ensures Apply(s, step).subscribers.value[topic] != {}
  {
    if step.Subscribe? && step.topic == topic && !step.cancelled {
      assert step.id in Apply(s, step).subscribers.value[topic];
    }
  }

  lemma StepInv(s: State, step: Step)
    requires Inv(s) && Legal(s, step)
    ensures Inv(Apply(s, step))
  {
    var t := Apply(s, step);
    forall id | id in t.all ensures SubscriberOk(t, id) {
      if id in s.all {
        SubscriberStays(s, step, id);
      } else {
        NewRegistered(s, id, step.topic, step.cancelled);
      }
    }
    if t.subscribers.Some? {
      forall topic | topic in t.subscribers.value
        ensures t.subscribers.value[topic] != {}
        ensures forall id :: id in t.subscribers.value[topic] ==> id in t.all && t.all[id].topic == topic
      {
        NoEmptyTopic(s, step, topic);
        forall id | id in t.subscribers.value[topic] ensures id in t.all && t.all[id].topic == topic {
          RegistryStays(s, step, topic, id);
        }
      }
    }
  }

  /** In every reachable state a channel is open exactly while registered, closed at most once and within its bound. */
  lemma {:induction false} RunInv(s: State, steps: seq<Step>)
    requires Inv(s) && LegalRun(s, steps)
    ensures Inv(After(s, steps))
    decreases |steps|
  {
    if steps != [] {
      StepInv(s, steps[0]);
      RunInv(Apply(s, steps[0]), steps[1..]);
    }
  }

  // ----- delivery -----

  /** The event a step offers to a topic, if any. */
  function PublishedBy(topic: string, step: Step): seq<Event> {
    if step.Publish? && step.topic == topic && ValidEvent(step.event) then [step.event] else []
  }

  /** The events offered to a topic, in order. */
  function PublishedTo(topic: string, steps: seq<Step>): seq<Event>
    decreases |steps|
  {
    if steps == [] then [] else PublishedBy(topic, steps[0]) + PublishedTo(topic, steps[1..])
  }

  /** All a subscription was given: what its reader took and what is still buffered. */
  function Got(s: State, id: int): seq<Event>
    requires id in s.all
  {
    s.all[id].received + s.all[id].events
  }

  predicate Subsequence(part: seq<Event>, whole: seq<Event>)
    decreases |whole|
  {
    if part == [] then true
    else if whole == [] then false
    else if part[0] == whole[0] && Subsequence(part[1..], whole[1..]) then true
    else Subsequence(part, whole[1..])
  }

  lemma GotStep(s: State, step: Step, id: int)
    requires Inv(s) && Legal(s, step) && id in s.all
    ensures Apply(s, step).all[id].topic == s.all[id].topic
    ensures
      var got := Got(Apply(s, step), id);
      if step.Publish? && ValidEvent(step.event) && step.topic == s.all[id].topic && Registered(s, id) && !Full(s, id)
      then got == Got(s, id) + [step.event]
      else got == Got(s, id)
  {
    var sub := s.all[id];
    assert SubscriberOk(s, id);
    match step
    case Publish(topic, event) =>
      if id in Listeners(s, topic) {
        assert id in s.subscribers.value[topic];
      }
      assert sub.received + (sub.events + [event]) == sub.received + sub.events + [event];
    case Receive(i) =>
      if i == id {
        assert sub.received + [sub.events[0]] + sub.events[1..] == sub.received + sub.events;
      }
    case _ =>
  }

  lemma {:induction false} NothingAfterwards(s: State, id: int, steps: seq<Step>)
    requires Inv(s) && LegalRun(s, steps) && id in s.all && !Registered(s, id)
    ensures id in After(s, steps).all && !Registered(After(s, steps), id) && Got(After(s, steps), id) == Got(s, id)
    decreases |steps|
  {
    if steps != [] {
      StepInv(s, steps[0]);
      RegisteredAfter(s, steps[0], id);
      GotStep(s, steps[0], id);
      NothingAfterwards(Apply(s, steps[0]), id, steps[1..]);
    }
  }

  /** While it stays registered under DisconnectSlowConsumer, a subscription is given exactly what a step publishes. */
  lemma GivenAll(s: State, step: Step, id: int)
    requires Inv(s) && Legal(s, step) && id in s.all && Registered(s, id) && s.policy == DisconnectSlowConsumer
    ensures Apply(s, step).all[id].topic == s.all[id].topic
    ensures Got(Apply(s, step), id) ==
            if Registered(Apply(s, step), id) then Got(s, id) + PublishedBy(s.all[id].topic, step) else Got(s, id)
  {
    RegisteredAfter(s, step, id);
    GotStep(s, step, id);
    assert Got(s, id) + [] == Got(s, id);
  }

  /** The end of a run's deliveries, seen from one step earlier. */
  lemma OneEarlier(got: seq<Event>, first: seq<Event>, rest: seq<Event>, end: seq<Event>)
    requires end <= got + first + rest
    ensures end <= got + (first + rest)
    ensures end == got + first + rest ==> end == got + (first + rest)
  {
    Regroup(got, first, rest);
  }

  lemma {:induction false} DeliveredInFull(s: State, id: int, steps: seq<Step>)
    requires Inv(s) && LegalRun(s, steps) && id in s.all && Registered(s, id) && s.policy == DisconnectSlowConsumer
    ensures
      var t := After(s, steps);
      var all := Got(s, id) + PublishedTo(s.all[id].topic, steps);
      && id in t.all
      && Got(t, id) <= all
      && (Registered(t, id) ==> Got(t, id) == all)
    decreases |steps|
  {
    var topic := s.all[id].topic;
    if steps == [] {
      assert Got(s, id) + PublishedTo(topic, steps) == Got(s, id);
    } else {
      var t := Apply(s, steps[0]);
      StepInv(s, steps[0]);
      GivenAll(s, steps[0], id);
      if Registered(t, id) {
        DeliveredInFull(t, id, steps[1..]);
        OneEarlier(Got(s, id), PublishedBy(topic, steps[0]), PublishedTo(topic, steps[1..]), Got(After(s, steps), id));
      } else {
        NothingAfterwards(t, id, steps[1..]);
      }
    }
  }

  lemma {:induction false} DeliveredInOrder(s: State, id: int, steps: seq<Step>)
    requires Inv(s) && LegalRun(s, steps) && id in s.all && Registered(s, id)
    ensures
      var t := After(s, steps);
      && id in t.all
      && Got(s, id) <= Got(t, id)
      && Subsequence(Got(t, id)[|Got(s, id)|..], PublishedTo(s.all[id].topic, steps))
    decreases |steps|
  {
    if steps != [] {
      var t := Apply(s, steps[0]);
      var rest := PublishedTo(s.all[id].topic, steps[1..]);
      StepInv(s, steps[0]);
      RegisteredAfter(s, steps[0], id);
      GotStep(s, steps[0], id);
      if Registered(t, id) {
        DeliveredInOrder(t, id, steps[1..]);
      } else {
        NothingAfterwards(t, id, steps[1..]);
      }
      var end := Got(After(s, steps), id);
      OneMore(Got(s, id), Got(t, id), end, PublishedBy(s.all[id].topic, steps[0]), rest);
    }
  }

  lemma OneMore(got: seq<Event>, next: seq<Event>, end: seq<Event>, first: seq<Event>, rest: seq<Event>)
    requires got <= next <= end && |first| <= 1 && (next == got || next == got + first)
    requires Subsequence(end[|next|..], rest)
    ensures Subsequence(end[|got|..], first + rest)
  {
    var part, whole := end[|got|..], first + rest;
    if first == [] {
      assert whole == rest;
    } else {
      assert whole[1..] == rest;
      if next != got {
        assert part[0] == first[0] && part[1..] == end[|next|..];
      }
    }
  }

  lemma {:induction false} RunSplit(s: State, a: seq<Step>, b: seq<Step>)
    requires LegalRun(s, a + b)
    ensures LegalRun(s, a) && LegalRun(After(s, a), b) && After(s, a + b) == After(After(s, a), b)
    decreases |a|
  {
    if a == [] {
      assert a + b == b;
    } else {
      assert (a + b)[0] == a[0] && (a + b)[1..] == a[1..] + b;
      RunSplit(Apply(s, a[0]), a[1..], b);
    }
  }

  // ----- subscribing -----

  /** A hub is open exactly until Close is called. */
  lemma {:induction false} OpenIff(s: State, steps: seq<Step>)
    requires s.subscribers.Some?
    ensures After(s, steps).subscribers.Some? <==> Close !in steps
    decreases |steps|
  {
    if steps != [] {
      assert steps == [steps[0]] + steps[1..];
      if steps[0] == Close {
        ClosedStays(Apply(s, Close), steps[1..]);
      } else {
        OpenIff(Apply(s, steps[0]), steps[1..]);
      }
    }
  }

  lemma {:induction false} ClosedStays(s: State, steps: seq<Step>)
    requires s.subscribers.None?
    ensures After(s, steps).subscribers.None?
    decreases |steps|
  {
    if steps != [] {
      ClosedStays(Apply(s, steps[0]), steps[1..]);
    }
  }

  /**
   Subscribing registers a subscription, with an open and empty channel, if and only if its context is alive and the hub
   is open; otherwise its channel is closed.  Nobody else is concerned.
   */
  lemma SubscribedIff(s: State, id: int, topic: string, cancelled: bool)
    requires Inv(s) && id !in s.all
    ensures
      var t := Apply(s, Subscribe(id, topic, cancelled));
      && t.all.Keys == s.all.Keys + {id}
      && t.all[id].topic == topic && t.all[id].events == [] && t.all[id].received == []
      && (Registered(t, id) <==> !cancelled && s.subscribers.Some?)
      && (t.all[id].open <==> !cancelled && s.subscribers.Some?)
      && forall other :: other in s.all ==>
           t.all[other] == s.all[other] && (Registered(t, other) <==> Registered(s, other))
  {
    var step := Subscribe(id, topic, cancelled);
    NewRegistered(s, id, topic, cancelled);
    if s.subscribers.Some? && topic in s.subscribers.value {
      assert id !in s.subscribers.value[topic];
    }
    forall other | other in s.all ensures Registered(Apply(s, step), other) <==> Registered(s, other) {
      RegisteredAfter(s, step, other);
    }
  }

  /** Neither the hub nor its own context ends a subscription, and no event for it meets a full channel. */
  predicate KeepsUp(s: State, id: int, steps: seq<Step>)
    requires id in s.all
    decreases |steps|
  {
    steps == [] ||
    (&& steps[0] != Close && steps[0] != Remove(id)
     && !(steps[0].Publish? && ValidEvent(steps[0].event) && steps[0].topic == s.all[id].topic &&
          |s.all[id].events| >= s.buffer)
     && id in Apply(s, steps[0]).all && KeepsUp(Apply(s, steps[0]), id, steps[1..]))
  }

  lemma KeptUpStep(s: State, id: int, step: Step)
    requires Inv(s) && Legal(s, step) && id in s.all && Registered(s, id) && step != Close && step != Remove(id)
    requires !(step.Publish? && ValidEvent(step.event) && step.topic == s.all[id].topic &&
               |s.all[id].events| >= s.buffer)
    ensures id in Apply(s, step).all && Registered(Apply(s, step), id)
    ensures Apply(s, step).all[id].topic == s.all[id].topic
    ensures Got(Apply(s, step), id) == Got(s, id) + PublishedBy(s.all[id].topic, step)
  {
    RegisteredAfter(s, step, id);
    GotStep(s, step, id);
    assert Got(s, id) + [] == Got(s, id);
  }

  /** Under either policy a subscription that keeps up stays registered and is given everything. */
  lemma {:induction false} KeptUpGetsAll(s: State, id: int, steps: seq<Step>)
    requires Inv(s) && LegalRun(s, steps) && id in s.all && Registered(s, id) && KeepsUp(s, id, steps)
    ensures var t := After(s, steps);
            id in t.all && Registered(t, id) && Got(t, id) == Got(s, id) + PublishedTo(s.all[id].topic, steps)
    decreases |steps|
  {
    var topic := s.all[id].topic;
    if steps == [] {
      assert Got(s, id) + PublishedTo(topic, steps) == Got(s, id);
    } else {
      StepInv(s, steps[0]);
      KeptUpStep(s, id, steps[0]);
      KeptUpGetsAll(Apply(s, steps[0]), id, steps[1..]);
      Regroup(Got(s, id), PublishedBy(topic, steps[0]), PublishedTo(topic, steps[1..]));
    }
  }

  /**
   Over any run: under DisconnectSlowConsumer a subscription was given a gap-free prefix of the events published to its
   topic since it subscribed, and all of them while it is registered; under DropEvent, a subsequence in order; and under
   either policy all of them, if it came with a live context before any Close and kept up.
   */
  lemma HubDelivery(start: State, before: seq<Step>, id: int, topic: string, cancelled: bool, after: seq<Step>)
    requires Init(start) && LegalRun(start, before + ([Subscribe(id, topic, cancelled)] + after))
    ensures
      var t := After(start, before + ([Subscribe(id, topic, cancelled)] + after));
      && id in t.all
      && (start.policy == DisconnectSlowConsumer ==> Got(t, id) <= PublishedTo(topic, after))
      && (start.policy == DisconnectSlowConsumer && Registered(t, id) ==> Got(t, id) == PublishedTo(topic, after))
      && (start.policy == DropEvent ==> Subsequence(Got(t, id), PublishedTo(topic, after)))
    ensures
      var u := Apply(After(start, before), Subscribe(id, topic, cancelled));
      var t := After(start, before + ([Subscribe(id, topic, cancelled)] + after));
      && id in u.all
      && (!cancelled && Close !in before && KeepsUp(u, id, after) ==>
          id in t.all && Registered(t, id) && Got(t, id) == PublishedTo(topic, after))
      && (cancelled || Close in before ==> id in t.all && !t.all[id].open && Got(t, id) == [])
  {
    var subscribe := [Subscribe(id, topic, cancelled)];
    RunSplit(start, before, subscribe + after);
    RunInv(start, before);
    PolicyStays(start, before);
    OpenIff(start, before);
    var s := After(start, before);
    assert (subscribe + after)[0] == subscribe[0] && (subscribe + after)[1..] == after;
    var u := Apply(s, subscribe[0]);
    StepInv(s, subscribe[0]);
    SubscribedIff(s, id, topic, cancelled);
    DeliveredFrom(u, id, topic, after);
  }

  /** The same from the state in which a subscription was handed out. */
  lemma DeliveredFrom(u: State, id: int, topic: string, after: seq<Step>)
    requires Inv(u) && LegalRun(u, after) && id in u.all && u.all[id].topic == topic && Got(u, id) == []
    ensures
      var t := After(u, after);
      && id in t.all
      && (u.policy == DisconnectSlowConsumer ==> Got(t, id) <= PublishedTo(topic, after))
      && (u.policy == DisconnectSlowConsumer && Registered(t, id) ==> Got(t, id) == PublishedTo(topic, after))
      && (u.policy == DropEvent ==> Subsequence(Got(t, id), PublishedTo(topic, after)))
      && (Registered(u, id) && KeepsUp(u, id, after) ==> Registered(t, id) && Got(t, id) == PublishedTo(topic, after))
      && (!Registered(u, id) ==> !t.all[id].open && Got(t, id) == [])
  {
    assert [] + PublishedTo(topic, after) == PublishedTo(topic, after);
    if Registered(u, id) {
      DeliveredInOrder(u, id, after);
      if u.policy == DisconnectSlowConsumer {
        DeliveredInFull(u, id, after);
      }
      if KeepsUp(u, id, after) {
        KeptUpGetsAll(u, id, after);
      }
    } else {
      NothingAfterwards(u, id, after);
      RunInv(u, after);
      assert SubscriberOk(After(u, after), id);
    }
  }

  lemma {:induction false} PolicyStays(s: State, steps: seq<Step>)
    ensures After(s, steps).policy == s.policy && After(s, steps).buffer == s.buffer
    decreases |steps|
  {
    if steps != [] {
      PolicyStays(Apply(s, steps[0]), steps[1..]);
    }
  }

  /** Under DropEvent only the subscription's own context and Close end it, however slow its reader is. */
  lemma {:induction false} DropNeverDisconnects(s: State, id: int, steps: seq<Step>)
    requires Inv(s) && LegalRun(s, steps) && id in s.all && Registered(s, id) && s.policy == DropEvent
    ensures id in After(s, steps).all
    ensures Registered(After(s, steps), id) <==> Remove(id) !in steps && Close !in steps
    decreases |steps|
  {
    if steps != [] {
      StepInv(s, steps[0]);
      RegisteredAfter(s, steps[0], id);
      GotStep(s, steps[0], id);
      if Registered(Apply(s, steps[0]), id) {
        DropNeverDisconnects(Apply(s, steps[0]), id, steps[1..]);
        assert steps == [steps[0]] + steps[1..];
      } else {
        NothingAfterwards(Apply(s, steps[0]), id, steps[1..]);
        assert steps[0] in steps;
      }
    }
  }

  /** The number PublishTopic returns counts exactly the channels that grew. */
  lemma CountsGrown(s: State, topic: string, event: Event)
    requires Inv(s)
    ensures Accepting(s, topic, event)
         == set id | id in s.all && |Apply(s, Publish(topic, event)).all[id].events| > |s.all[id].events|
  {
    forall id | id in s.all
      ensures id in Accepting(s, topic, event)
         <==> |Apply(s, Publish(topic, event)).all[id].events| > |s.all[id].events|
    {
      assert SubscriberOk(s, id);
    }
  }

  /** A closed hub stays closed: nobody is registered and nothing is given to anyone any more. */
  lemma ClosedForever(s: State, id: int, steps: seq<Step>)
    requires Inv(s) && LegalRun(s, steps) && s.subscribers == None && id in s.all
    ensures id in After(s, steps).all && !After(s, steps).all[id].open && Got(After(s, steps), id) == Got(s, id)
  {
    NothingAfterwards(s, id, steps);
    RunInv(s, steps);
    assert SubscriberOk(After(s, steps), id);
  }

  /** Once Close was called every channel there is, also one handed out later, is closed. */
  lemma AllClosed(start: State, steps: seq<Step>, id: int)
    requires Init(start) && LegalRun(start, steps) && Close in steps && id in After(start, steps).all
    ensures !After(start, steps).all[id].open && !Registered(After(start, steps), id)
  {
    OpenIff(start, steps);
    RunInv(start, steps);
    assert SubscriberOk(After(start, steps), id);
  }
}
