/** The observer: the listener registry and the loop that hands received events to listeners. */
module Observer {
  import opened Wrappers
  import opened HostDiff
  import opened ServiceInfos
  import opened Emitter

  /** Listeners are told apart by identity only. */
  type Listener = nat

  type Registry = map<string, seq<Listener>>

  datatype NamingChangeEvent = NamingChangeEvent(
    serviceName: string,
    groupName: string,
    clusters: string,
    instances: Option<seq<ServiceInstance>>
  )

  function ChangeOf(info: ServiceInfo): NamingChangeEvent {
    NamingChangeEvent(info.name, info.groupName, info.clusters, info.hosts)
  }

  /** The key an event belongs to. */
  function EventKey(event: NamingChangeEvent): string {
    GroupedServiceName(event.serviceName, event.groupName)
  }

  datatype Notification = Notification(listener: Listener, event: NamingChangeEvent)

  predicate NoListenerTwice(listeners: seq<Listener>) {
    forall i, j :: 0 <= i < j < |listeners| ==> listeners[i] != listeners[j]
  }

  /** The listeners registered for a key; none when the key was never subscribed. */
  function ListenersOf(registry: Registry, key: string): seq<Listener> {
    if key in registry then registry[key] else []
  }

  /** One notification for each listener of the list, in order. */
  function NotifyAll(listeners: seq<Listener>, event: NamingChangeEvent): seq<Notification> {
    if listeners == [] then []
    else NotifyAll(listeners[..|listeners| - 1], event) + [Notification(listeners[|listeners| - 1], event)]
  }

  /** What the receiving loop meets and the client's users do, in the order in which they take the
      registry's lock. */
  datatype Step =
    | Received(info: ServiceInfo)
    | Subscribed(key: string, listener: Listener)
    | Unsubscribed(key: string, listener: Listener)

  function Stepped(registry: Registry, step: Step): Registry {
    match step
    case Received(_) => registry
    case Subscribed(key, listener) =>
      registry[key := Without(ListenersOf(registry, key), listener) + [listener]]
    case Unsubscribed(key, listener) =>
      if key in registry then registry[key := Without(registry[key], listener)] else registry
  }

  function RegistryAfter(registry: Registry, steps: seq<Step>): Registry {
    if steps == [] then registry
    else Stepped(RegistryAfter(registry, steps[..|steps| - 1]), steps[|steps| - 1])
  }

  /** What one step sends. */
  function SentBy(registry: Registry, step: Step): seq<Notification> {
    if step.Received? then NotifyAll(ListenersOf(registry, step.info.Key()), ChangeOf(step.info)) else []
  }

  /** All the loop sends. */
  function Sent(registry: Registry, steps: seq<Step>): seq<Notification> {
    if steps == [] then []
    else
      var before := steps[..|steps| - 1];
      Sent(registry, before) + SentBy(RegistryAfter(registry, before), steps[|steps| - 1])
  }

  // ---------------------------------------------------------------- what a listener hears

  /** What one listener was told about one key, in order. */
  function ToldTo(listener: Listener, key: string, sent: seq<Notification>): seq<NamingChangeEvent> {
    if sent == [] then []
    else
      var last := sent[|sent| - 1];
      ToldTo(listener, key, sent[..|sent| - 1])
      + if last.listener == listener && EventKey(last.event) == key then [last.event] else []
  }

  /** The snapshots of one key, in order. */
  function OfKey(key: string, events: seq<ServiceInfo>): seq<ServiceInfo> {
    if events == [] then []
    else
      OfKey(key, events[..|events| - 1])
      + if events[|events| - 1].Key() == key then [events[|events| - 1]] else []
  }

  function Changes(events: seq<ServiceInfo>): seq<NamingChangeEvent> {
    seq(|events|, i requires 0 <= i < |events| => ChangeOf(events[i]))
  }

  /** The snapshots received, in order. */
  function Infos(steps: seq<Step>): seq<ServiceInfo> {
    if steps == [] then []
    else
      var last := steps[|steps| - 1];
      Infos(steps[..|steps| - 1]) + if last.Received? then [last.info] else []
  }

  /** Whether a listener is subscribed to a key after the steps: its last subscription or the end of
      one says so, and without any it is as it was. */
  predicate IsSubscribed(initially: bool, key: string, listener: Listener, steps: seq<Step>) {
    if steps == [] then initially
    else
      var last := steps[|steps| - 1];
      if last == Subscribed(key, listener) then true
      else if last == Unsubscribed(key, listener) then false
      else IsSubscribed(initially, key, listener, steps[..|steps| - 1])
  }

  /** The snapshots of a key received while the listener is subscribed to it. */
  function HeardWhileSubscribed(
      initially: bool, key: string, listener: Listener, steps: seq<Step>): seq<ServiceInfo>
  {
    if steps == [] then []
    else
      var before, last := steps[..|steps| - 1], steps[|steps| - 1];
      HeardWhileSubscribed(initially, key, listener, before)
      + if last.Received? && last.info.Key() == key && IsSubscribed(initially, key, listener, before) then [last.info]
        else []
  }

  /** No list of the registry holds a listener twice. */
  ghost predicate NoneTwice(registry: Registry) {
    forall k :: k in registry ==> NoListenerTwice(registry[k])
  }

  lemma {:induction false} ToldAppend(listener: Listener, key: string, sent: seq<Notification>, more: seq<Notification>)
    ensures ToldTo(listener, key, sent + more) == ToldTo(listener, key, sent) + ToldTo(listener, key, more)
  {
    hide EventKey;
    if more == [] {
      assert sent + more == sent;
    } else {
      var n := |more| - 1;
      ToldAppend(listener, key, sent, more[..n]);
      assert (sent + more)[..|sent| + n] == sent + more[..n];
    }
  }

  lemma ToldOfOne(listener: Listener, key: string, n: Notification)
    ensures ToldTo(listener, key, [n]) == if n.listener == listener && EventKey(n.event) == key then [n.event] else []
  {
    hide EventKey;
    assert [n][..0] == [];
  }

  lemma ToldNothing(listener: Listener, key: string)
    ensures ToldTo(listener, key, []) == []
  {
  }

  lemma {:induction false} ToldElsewhere(
      listener: Listener, key: string, listeners: seq<Listener>, event: NamingChangeEvent)
    requires EventKey(event) != key
    ensures ToldTo(listener, key, NotifyAll(listeners, event)) == []
  {
    hide ToldTo, EventKey;
    if listeners != [] {
      var n := |listeners| - 1;
      ToldElsewhere(listener, key, listeners[..n], event);
      ToldAppend(listener, key, NotifyAll(listeners[..n], event), [Notification(listeners[n], event)]);
      ToldOfOne(listener, key, Notification(listeners[n], event));
    } else {
      ToldNothing(listener, key);
    }
  }

  lemma {:induction false} ToldOnce(listener: Listener, key: string, listeners: seq<Listener>, event: NamingChangeEvent)
    requires NoListenerTwice(listeners) && EventKey(event) == key
    ensures ToldTo(listener, key, NotifyAll(listeners, event)) == if listener in listeners then [event] else []
  {
    hide ToldTo, EventKey;
    if listeners != [] {
      var n := |listeners| - 1;
      var front := listeners[..n];
      ToldOnce(listener, key, front, event);
      ToldAppend(listener, key, NotifyAll(front, event), [Notification(listeners[n], event)]);
      ToldOfOne(listener, key, Notification(listeners[n], event));
      assert listeners == front + [listeners[n]];
      assert listeners[n] !in front;
    } else {
      ToldNothing(listener, key);
    }
  }

  lemma ChangesAppend(infos: seq<ServiceInfo>, info: ServiceInfo)
    ensures Changes(infos + [info]) == Changes(infos) + [ChangeOf(info)]
  {
  }

  /** An event says of its snapshot the name, the group, the clusters and the hosts, so it belongs to
      the snapshot's key. */
  lemma ChangeKeepsKey(info: ServiceInfo)
    ensures var event := ChangeOf(info);
            && event.serviceName == info.name && event.groupName == info.groupName
            && event.clusters == info.clusters && event.instances == info.hosts
            && EventKey(event) == info.Key()
  {
  }

  /** What one step does to the listeners of a key. */
  lemma SteppedListeners(registry: Registry, step: Step, key: string, listener: Listener)
    requires NoneTwice(registry)
    ensures NoneTwice(Stepped(registry, step))
    ensures listener in ListenersOf(Stepped(registry, step), key) <==>
            step == Subscribed(key, listener)
            || (step != Unsubscribed(key, listener) && listener in ListenersOf(registry, key))
  {
    assert NoListenerTwice([]);
    hide NoListenerTwice, Without;
    if !step.Received? {
      WithoutKeepsOthers(ListenersOf(registry, step.key), step.listener);
      if step.Subscribed? {
        OneMoreListener(ListenersOf(registry, step.key), step.listener);
      }
    }
  }

  /** The registry holds exactly the subscriptions that the steps left standing, each once. */
  lemma {:induction false} RegistryHoldsSubscriptions(
      registry: Registry, key: string, listener: Listener, steps: seq<Step>)
    requires NoneTwice(registry)
    ensures NoneTwice(RegistryAfter(registry, steps))
    ensures listener in ListenersOf(RegistryAfter(registry, steps), key) <==>
            IsSubscribed(listener in ListenersOf(registry, key), key, listener, steps)
  {
    hide NoneTwice, Stepped;
    if steps != [] {
      var n := |steps| - 1;
      RegistryHoldsSubscriptions(registry, key, listener, steps[..n]);
      SteppedListeners(RegistryAfter(registry, steps[..n]), steps[n], key, listener);
    }
  }

  lemma ToldBy(registry: Registry, step: Step, key: string, listener: Listener)
    requires NoneTwice(registry)
    ensures ToldTo(listener, key, SentBy(registry, step)) ==
            if step.Received? && step.info.Key() == key && listener in ListenersOf(registry, key)
            then [ChangeOf(step.info)] else []
  {
    hide ServiceInfo.Key, ToldTo, NotifyAll, ChangeOf, EventKey;
    if step.Received? {
      var listeners := ListenersOf(registry, step.info.Key());
      ChangeKeepsKey(step.info);
      if step.info.Key() == key {
        ToldOnce(listener, key, listeners, ChangeOf(step.info));
      } else {
        ToldElsewhere(listener, key, listeners, ChangeOf(step.info));
      }
    } else {
      ToldNothing(listener, key);
    }
  }

  /** However subscriptions and events interleave, a listener is told under a key exactly the events
      of that key received while it is subscribed to it, each once and in order. */
  lemma {:induction false} ListenerHearsItsKey(
      registry: Registry, key: string, listener: Listener, steps: seq<Step>)
    requires NoneTwice(registry)
    ensures ToldTo(listener, key, Sent(registry, steps)) ==
            Changes(HeardWhileSubscribed(listener in ListenersOf(registry, key), key, listener, steps))
  {
    hide ServiceInfo.Key, ToldTo, Changes, SentBy, ChangeOf, RegistryAfter, IsSubscribed, NoneTwice;
    var initially := listener in ListenersOf(registry, key);
    if steps != [] {
      var n := |steps| - 1;
      var before, step := steps[..n], steps[n];
      var now := RegistryAfter(registry, before);
      ListenerHearsItsKey(registry, key, listener, before);
      ToldAppend(listener, key, Sent(registry, before), SentBy(now, step));
      RegistryHoldsSubscriptions(registry, key, listener, before);
      ToldBy(now, step, key, listener);
      var heard := HeardWhileSubscribed(initially, key, listener, before);
      assert heard + [] == heard;
      if step.Received? {
        ChangesAppend(heard, step.info);
      }
    } else {
      ToldNothing(listener, key);
      ChangesOfNone();
    }
  }

  lemma ChangesOfNone()
    ensures Changes([]) == []
  {
  }

  // ---------------------------------------------------------------- emitter to listener

  lemma {:induction false} ReplayIsLastOfKey(cache: ServiceCache, key: string, events: seq<ServiceInfo>)
    ensures var mine := OfKey(key, events);
            Lookup(Replay(cache, events), key) ==
            if mine == [] then Lookup(cache, key) else Some(mine[|mine| - 1])
  {
    hide ServiceInfo.Key;
    if events != [] {
      ReplayIsLastOfKey(cache, key, events[..|events| - 1]);
    }
  }

  /** A listener that stays subscribed hears everything of its key. */
  lemma {:induction false} SubscribedThroughout(key: string, listener: Listener, steps: seq<Step>)
    requires forall i :: 0 <= i < |steps| ==> steps[i] != Unsubscribed(key, listener)
    ensures IsSubscribed(true, key, listener, steps)
    ensures HeardWhileSubscribed(true, key, listener, steps) == OfKey(key, Infos(steps))
  {
    hide ServiceInfo.Key;
    if steps != [] {
      var n := |steps| - 1;
      SubscribedThroughout(key, listener, steps[..n]);
      if steps[n].Received? {
        assert Infos(steps)[..|Infos(steps)| - 1] == Infos(steps[..n]);
      } else {
        assert Infos(steps) == Infos(steps[..n]);
      }
    }
  }

  lemma {:induction false} RegistrySplits(registry: Registry, early: seq<Step>, late: seq<Step>)
    ensures RegistryAfter(registry, early + late) == RegistryAfter(RegistryAfter(registry, early), late)
  {
    hide Stepped;
    if late == [] {
      assert early + late == early;
    } else {
      var n := |late| - 1;
      RegistrySplits(registry, early, late[..n]);
      assert (early + late)[..|early| + n] == early + late[..n];
    }
  }

  lemma {:induction false} InfosSplit(early: seq<Step>, late: seq<Step>)
    ensures Infos(early + late) == Infos(early) + Infos(late)
  {
    if late == [] {
      assert early + late == early;
    } else {
      var n := |late| - 1;
      InfosSplit(early, late[..n]);
      assert (early + late)[..|early| + n] == early + late[..n];
    }
  }

  lemma {:induction false} SentSplits(registry: Registry, early: seq<Step>, late: seq<Step>)
    ensures Sent(registry, early + late) == Sent(registry, early) + Sent(RegistryAfter(registry, early), late)
  {
    hide RegistryAfter, SentBy;
    if late == [] {
      assert early + late == early;
    } else {
      var n := |late| - 1;
      SentSplits(registry, early, late[..n]);
      RegistrySplits(registry, early, late[..n]);
      assert (early + late)[..|early| + n] == early + late[..n];
    }
  }

  lemma {:induction false} ReplaySplits(cache: ServiceCache, early: seq<ServiceInfo>, late: seq<ServiceInfo>)
    ensures Replay(cache, early + late) == Replay(Replay(cache, early), late)
  {
    hide ServiceInfo.Key;
    if late == [] {
      assert early + late == early;
    } else {
      var n := |late| - 1;
      ReplaySplits(cache, early, late[..n]);
      assert (early + late)[..|early| + n] == early + late[..n];
    }
  }

  /** From the emitter to the listener: once every event of a run of emits has been received, the
      last change that a listener was told about its key since it subscribed is the cached snapshot;
      if it was told nothing, that snapshot is the one received before it subscribed. Others may
      subscribe and unsubscribe meanwhile, to this key and any other. */
  lemma ListenerSeesTheCache(
      registry: Registry, key: string, listener: Listener, early: seq<Step>, late: seq<Step>,
      pushEmptyProtection: bool, cache: ServiceCache, infos: seq<ServiceInfo>)
    requires NoneTwice(registry)
    requires IsSubscribed(listener in ListenersOf(registry, key), key, listener, early)
    requires forall i :: 0 <= i < |late| ==> late[i] != Unsubscribed(key, listener)
    requires Infos(early + late) == EmitAll(pushEmptyProtection, Feed(cache, []), infos).events
    ensures var after := EmitAll(pushEmptyProtection, Feed(cache, []), infos).cache;
            var sinceThen := Sent(RegistryAfter(registry, early), late);
            var told := ToldTo(listener, key, sinceThen);
            && Sent(registry, early + late) == Sent(registry, early) + sinceThen
            && if told == [] then Lookup(after, key) == Lookup(Replay(cache, Infos(early)), key)
               else key in after && told[|told| - 1] == ChangeOf(after[key])
  {
    hide ServiceInfo.Key, ToldTo, EmitAll, Sent, OfKey, Replay, Infos, HeardWhileSubscribed;
    var after := EmitAll(pushEmptyProtection, Feed(cache, []), infos);
    EventLogIsCache(pushEmptyProtection, Feed(cache, []), infos);
    assert after.events[0..] == after.events;
    SentSplits(registry, early, late);
    InfosSplit(early, late);
    ReplaySplits(cache, Infos(early), Infos(late));
    ReplayIsLastOfKey(Replay(cache, Infos(early)), key, Infos(late));
    RegistryHoldsSubscriptions(registry, key, listener, early);
    ListenerHearsItsKey(RegistryAfter(registry, early), key, listener, late);
    SubscribedThroughout(key, listener, late);
  }

  // ---------------------------------------------------------------- the registry

  function Without(listeners: seq<Listener>, listener: Listener): seq<Listener> {
    if listeners == [] then []
    else if listeners[0] == listener then listeners[1..]
    else [listeners[0]] + Without(listeners[1..], listener)
  }

  lemma {:induction false} WithoutKeepsOthers(listeners: seq<Listener>, listener: Listener)
    requires NoListenerTwice(listeners)
    ensures NoListenerTwice(Without(listeners, listener))
    ensures listener !in Without(listeners, listener)
    ensures forall l :: l != listener ==> (l in Without(listeners, listener) <==> l in listeners)
  {
    if listeners != [] && listeners[0] != listener {
      var rest := Without(listeners[1..], listener);
      WithoutKeepsOthers(listeners[1..], listener);
      assert listeners == [listeners[0]] + listeners[1..];
      assert listeners[0] !in listeners[1..];
    } else if listeners != [] {
      assert listeners == [listeners[0]] + listeners[1..];
    }
  }

  lemma OneMoreListener(listeners: seq<Listener>, listener: Listener)
    requires listeners == [] || NoListenerTwice(listeners)
    ensures NoListenerTwice(Without(listeners, listener) + [listener])
    ensures listeners == [] ==> Without(listeners, listener) + [listener] == [listener]
  {
    if listeners != [] {
      WithoutKeepsOthers(listeners, listener);
    }
  }

  class ServiceInfoObserver {
    var registry: Registry

    ghost predicate Valid()
      reads this
    {
      NoneTwice(registry)
    }

    constructor ()
      ensures Valid() && registry == map[]
    {
      registry := map[];
    }

    method IndexOfListener(listeners: seq<Listener>, target: Listener) returns (index: Option<nat>)
      ensures index.Some? ==> index.value < |listeners| && listeners[index.value] == target
                              && target !in listeners[..index.value]
      ensures index.None? ==> target !in listeners
    {
      for i := 0 to |listeners|
        invariant target !in listeners[..i]
      {
        if listeners[i] == target {
          return Some(i);
        }
      }
      return None;
    }

    /** Registers a listener once; registering it again moves it to the end. */
    method Subscribe(key: string, listener: Listener)
      requires Valid()
      modifies this
      ensures Valid()
      ensures registry == Stepped(old(registry), Subscribed(key, listener))
      ensures forall k, l :: l in ListenersOf(registry, k) <==>
                             (k == key && l == listener) || l in ListenersOf(old(registry), k)
    {
      hide NoListenerTwice;
      forall k, l
        ensures l in ListenersOf(Stepped(registry, Subscribed(key, listener)), k) <==>
                (k == key && l == listener) || l in ListenersOf(registry, k)
      {
        SteppedListeners(registry, Subscribed(key, listener), k, l);
      }
      if key in registry {
        var listeners := registry[key];
        OneMoreListener(listeners, listener);
        var index := IndexOfListener(listeners, listener);
        WithoutIndex(listeners, listener, if index.Some? then index.value else |listeners|);
        if index.Some? {
          listeners := listeners[..index.value] + listeners[index.value + 1..];
        }
        registry := registry[key := listeners + [listener]];
      } else {
        OneMoreListener([], listener);
        registry := registry[key := [listener]];
      }
    }

    method Unsubscribe(key: string, listener: Listener)
      requires Valid()
      modifies this
      ensures Valid()
      ensures registry == Stepped(old(registry), Unsubscribed(key, listener))
      ensures forall k, l :: l in ListenersOf(registry, k) <==>
                             (k != key || l != listener) && l in ListenersOf(old(registry), k)
    {
      hide Without, NoListenerTwice;
      forall k, l
        ensures l in ListenersOf(Stepped(registry, Unsubscribed(key, listener)), k) <==>
                (k != key || l != listener) && l in ListenersOf(registry, k)
      {
        SteppedListeners(registry, Unsubscribed(key, listener), k, l);
      }
      if key !in registry {
        return;
      }
      var listeners := registry[key];
      WithoutKeepsOthers(listeners, listener);
      var index := IndexOfListener(listeners, listener);
      WithoutIndex(listeners, listener, if index.Some? then index.value else |listeners|);
      if index.None? {
        assert registry == registry[key := listeners];
        return;
      }
      registry := registry[key := listeners[..index.value] + listeners[index.value + 1..]];
    }

    /** The receiving loop among the calls of its users. Each holds the registry's lock while it
        runs, so what happens is one sequence of steps. */
    method Observe(steps: seq<Step>) returns (sent: seq<Notification>)
      requires Valid()
      modifies this
      ensures Valid()
      ensures registry == RegistryAfter(old(registry), steps)
      ensures sent == Sent(old(registry), steps)
    {
      hide Stepped, NoneTwice, NotifyAll, ListenersOf;
      sent := [];
      for i := 0 to |steps|
        invariant Valid()
        invariant registry == RegistryAfter(old(registry), steps[..i])
        invariant sent == Sent(old(registry), steps[..i])
      {
        assert steps[..i + 1][..i] == steps[..i];
        match steps[i]
        case Received(info) =>
          var notified := Notify(info);
          sent := sent + notified;
          ReceivingChangesNothing(registry, info);
        case Subscribed(key, listener) =>
          Subscribe(key, listener);
        case Unsubscribed(key, listener) =>
          Unsubscribe(key, listener);
      }
      assert steps[..|steps|] == steps;
    }

    /** One received snapshot: a notification for each listener of its key. */
    method Notify(info: ServiceInfo) returns (sent: seq<Notification>)
      ensures sent == NotifyAll(ListenersOf(registry, info.Key()), ChangeOf(info))
    {
      sent := [];
      var key := info.Key();
      if key !in registry || registry[key] == [] {
        return;
      }
      var listeners := registry[key];
      var event := ChangeOf(info);
      for j := 0 to |listeners|
        invariant sent == NotifyAll(listeners[..j], event)
      {
        sent := sent + [Notification(listeners[j], event)];
        assert listeners[..j + 1][..j] == listeners[..j];
      }
      assert listeners[..|listeners|] == listeners;
    }
  }

  lemma ReceivingChangesNothing(registry: Registry, info: ServiceInfo)
    ensures Stepped(registry, Received(info)) == registry
  {
  }

  lemma {:induction false} WithoutNone(listeners: seq<Listener>, listener: Listener)
    requires listener !in listeners
    ensures Without(listeners, listener) == listeners
  {
    if listeners != [] {
      assert listeners[0] in listeners;
      WithoutNone(listeners[1..], listener);
      assert listeners == [listeners[0]] + listeners[1..];
    }
  }

  lemma {:induction false} WithoutAt(listeners: seq<Listener>, listener: Listener, index: nat)
    requires index < |listeners| && listeners[index] == listener && listener !in listeners[..index]
    ensures Without(listeners, listener) == listeners[..index] + listeners[index + 1..]
  {
    if index > 0 {
      var rest := listeners[1..];
      assert listeners[..index][0] != listener;
      assert rest[..index - 1] == listeners[..index][1..];
      WithoutAt(rest, listener, index - 1);
      assert rest[index..] == listeners[index + 1..];
      assert listeners[..index] == [listeners[0]] + rest[..index - 1];
    }
  }

  lemma WithoutIndex(listeners: seq<Listener>, listener: Listener, index: nat)
    requires index <= |listeners| && listener !in listeners[..index]
    requires index < |listeners| ==> listeners[index] == listener
    ensures Without(listeners, listener) ==
            if index < |listeners| then listeners[..index] + listeners[index + 1..] else listeners
  {
    hide Without;
    if index < |listeners| {
      WithoutAt(listeners, listener, index);
    } else {
      assert listeners[..index] == listeners;
      WithoutNone(listeners, listener);
    }
  }
}
