/** Registering listeners while their entry is being created. `add_listener` waits for the server
    between its test for the key and its insert, so calls for one key can overlap, with each other
    and with the notify loop. A run is any interleaving of what happens to one key. */
module ConfigCalls {
  import opened Wrappers
  import opened ConfigModel
  import opened ConfigSync

  /** The entry of the key, if there is one, and the calls that found none, in the order in which
      they began; `None` is a call that has ended. */
  datatype Slot = Slot(entry: Option<Entry>, calls: seq<Option<Listener>>)

  datatype Event =
    | Begin(listener: Listener)                       // the test for the key
    | End(call: nat, reply: Option<QueryResponse>)    // the answer, the insert and the registration
    | Unregister(listener: Listener)
    | Refresh(response: QueryResponse)                // the notify loop took the key from its channel

  const VACANT := Slot(None, [])

  function WithListener(e: Entry, listener: Listener): Entry {
    e.(listeners := AddListener(e.listeners, listener))
  }

  function WithoutListener(e: Entry, listener: Listener): Entry {
    e.(listeners := RemoveListener(e.listeners, listener))
  }

  /** The entry a call creates: filled when the server answers. An incomplete answer panics. */
  function CreatedEntry(id: ConfigId, reply: Option<QueryResponse>): Option<Entry> {
    if reply.None? then Some(NewEntry(id))
    else if reply.value.Complete() then Some(Refreshed(NewEntry(id), reply.value))
    else None
  }

  /** What a call creates, field by field: the server's configuration, counted as filled, or when the
      server does not answer an empty text still to be filled; no listeners either way. */
  lemma CreatedHolds(id: ConfigId, reply: Option<QueryResponse>)
    ensures CreatedEntry(id, reply).None? <==> reply.Some? && !reply.value.Complete()
    ensures CreatedEntry(id, reply).Some? ==>
              var e := CreatedEntry(id, reply).value;
              && e.id == id && e.listeners == []
              && if reply.Some? then Holds(e, reply.value)
                 else e.initializing && e.contentType == "text" && e.content == "" && e.md5 == ""
                      && e.encryptedDataKey == "" && e.lastModified == 0
  {
  }

  function Waiting(s: Slot, call: nat): Option<Listener> {
    if call < |s.calls| then s.calls[call] else None
  }

  function Apply(id: ConfigId, s: Slot, e: Event): Slot {
    match e
    case Begin(listener) =>
      if s.entry.Some? then s.(entry := Some(WithListener(s.entry.value, listener)))
      else s.(calls := s.calls + [Some(listener)])
    case End(call, reply) => (
      match Waiting(s, call)
      case None => s
      case Some(listener) =>
        var created := CreatedEntry(id, reply);
        Slot(if created.Some? then Some(WithListener(created.value, listener)) else s.entry,
             s.calls[call := None]))
    case Unregister(listener) =>
      if s.entry.Some? then s.(entry := Some(WithoutListener(s.entry.value, listener))) else s
    case Refresh(response) =>
      if s.entry.Some? then s.(entry := Some(Refreshed(s.entry.value, response))) else s
  }

  function ApplyAll(id: ConfigId, s: Slot, events: seq<Event>): Slot {
    if events == [] then s
    else Apply(id, ApplyAll(id, s, events[..|events| - 1]), events[|events| - 1])
  }

  ghost predicate Registered(s: Slot, l: Listener) {
    s.entry.Some? && l in Names(s.entry.value.listeners)
  }

  ghost predicate OnceEach(s: Slot) {
    s.entry.Some? ==> NoListenerTwice(s.entry.value.listeners)
  }

  /** A waiting call ends with an entry of its own, which takes the place of any other. */
  predicate Inserts(id: ConfigId, s: Slot, e: Event) {
    e.End? && Waiting(s, e.call).Some? && CreatedEntry(id, e.reply).Some?
  }

  /** The call of the listener is through. */
  predicate Registers(id: ConfigId, s: Slot, e: Event, l: Listener) {
    (e == Begin(l) && s.entry.Some?) || (Inserts(id, s, e) && Waiting(s, e.call) == Some(l))
  }

  /** The listener is unregistered, or another call inserts its own entry. */
  predicate Drops(id: ConfigId, s: Slot, e: Event, l: Listener) {
    e == Unregister(l) || (Inserts(id, s, e) && Waiting(s, e.call) != Some(l))
  }

  /** What one event does to one listener's registration. */
  lemma ApplyRegistered(id: ConfigId, s: Slot, e: Event, l: Listener)
    requires OnceEach(s)
    ensures OnceEach(Apply(id, s, e))
    ensures Registered(Apply(id, s, e), l) <==>
            Registers(id, s, e, l) || (Registered(s, l) && !Drops(id, s, e, l))
  {
    assert Names([]) == {} && NoListenerTwice([]);
    hide Names, NoListenerTwice, AddListener, RemoveListener, Refreshed, CreatedEntry;
    match e
    case Begin(listener) =>
      if s.entry.Some? {
        Added(s.entry.value.listeners, listener);
      }
    case End(call, reply) =>
      var created := CreatedEntry(id, reply);
      if Waiting(s, call).Some? && created.Some? {
        CreatedHolds(id, reply);
        Added(created.value.listeners, Waiting(s, call).value);
      }
    case Unregister(listener) =>
      if s.entry.Some? {
        Removed(s.entry.value.listeners, listener);
      }
    case Refresh(response) =>
      if s.entry.Some? {
        RefreshedNames(s.entry.value, response);
      }
  }

  /** What one event does to what the entry holds: a refresh and an insert bring the server's
      configuration, and listeners come and go without touching it. */
  lemma ContentAfter(id: ConfigId, s: Slot, e: Event)
    ensures var after := Apply(id, s, e);
            && (s.entry.Some? ==> after.entry.Some?)
            && (e.Refresh? && s.entry.Some? && e.response.Complete() ==> Holds(after.entry.value, e.response))
            && (Inserts(id, s, e) ==>
                  && after.entry.Some?
                  && if e.reply.Some? then Holds(after.entry.value, e.reply.value)
                     else after.entry.value.initializing)
            && (!Inserts(id, s, e) && !e.Refresh? ==>
                  && (after.entry.Some? <==> s.entry.Some?)
                  && (s.entry.Some? ==> after.entry.value.(listeners := s.entry.value.listeners) == s.entry.value))
  {
    hide AddListener, RemoveListener;
    if e.Refresh? && s.entry.Some? {
      RefreshedHolds(s.entry.value, e.response);
    }
  }

  /** The event at `i` completes a call of the listener, and none after it drops the listener. */
  ghost predicate Stands(id: ConfigId, events: seq<Event>, i: int, l: Listener) {
    && 0 <= i < |events|
    && Registers(id, ApplyAll(id, VACANT, events[..i]), events[i], l)
    && forall j :: i < j < |events| ==> !Drops(id, ApplyAll(id, VACANT, events[..j]), events[j], l)
  }

  lemma StandsOneMore(id: ConfigId, front: seq<Event>, e: Event, l: Listener)
    ensures forall i :: Stands(id, front + [e], i, l) <==>
              if i == |front| then Registers(id, ApplyAll(id, VACANT, front), e, l)
              else Stands(id, front, i, l) && !Drops(id, ApplyAll(id, VACANT, front), e, l)
  {
    hide ApplyAll, Registers, Drops;
    var events := front + [e];
    assert events[..|front|] == front && events[|front|] == e;
    assert forall j :: 0 <= j < |front| ==> events[j] == front[j] && events[..j] == front[..j];
  }

  /** Over every interleaving of calls, refreshes and removals of one key, a listener is registered
      exactly when one of its calls is through and since then it was neither removed nor lost to
      another call that had found no entry and inserted its own. */
  lemma {:induction false} RegisteredIff(id: ConfigId, events: seq<Event>, l: Listener)
    ensures var s := ApplyAll(id, VACANT, events);
            OnceEach(s) && (Registered(s, l) <==> exists i :: Stands(id, events, i, l))
  {
    if events != [] {
      var n := |events| - 1;
      var front, e := events[..n], events[n];
      var before := ApplyAll(id, VACANT, front);
      assert events == front + [e] && ApplyAll(id, VACANT, events) == Apply(id, before, e);
      hide *;
      RegisteredIff(id, front, l);
      ApplyRegistered(id, before, e, l);
      StandsOneMore(id, front, e, l);
      if Registers(id, before, e, l) {
        assert Stands(id, events, n, l);
      } else if i :| Stands(id, front, i, l) {
        assert Stands(id, events, i, l) <==> !Drops(id, before, e, l);
      }
    }
  }

  /** No call is waiting for the server. */
  predicate Quiet(s: Slot) {
    forall c :: 0 <= c < |s.calls| ==> s.calls[c].None?
  }

  /** Once the entry is there and no call waits, registrations end only by being removed. */
  lemma {:induction false} OnlyRemovalDrops(id: ConfigId, s: Slot, events: seq<Event>, l: Listener)
    requires s.entry.Some? && Quiet(s) && OnceEach(s)
    ensures var after := ApplyAll(id, s, events);
            && after.entry.Some? && Quiet(after) && OnceEach(after)
            && (Unregister(l) !in events ==>
                  (Registered(after, l) <==> Registered(s, l) || Begin(l) in events))
  {
    if events != [] {
      var n := |events| - 1;
      OnlyRemovalDrops(id, s, events[..n], l);
      assert events == events[..n] + [events[n]];
      hide Registered, OnceEach, WithListener, WithoutListener, Refreshed, CreatedEntry;
      ApplyRegistered(id, ApplyAll(id, s, events[..n]), events[n], l);
    }
  }

  lemma ApplyOneMore(id: ConfigId, s: Slot, events: seq<Event>, e: Event)
    ensures ApplyAll(id, s, events + [e]) == Apply(id, ApplyAll(id, s, events), e)
  {
    hide Apply;
    assert (events + [e])[..|events|] == events;
  }

  /** Two calls that overlap both get through, and the first one's listener is lost. */
  lemma OverlappingCallsLoseAListener(id: ConfigId, first: Listener, second: Listener)
    requires first != second
    ensures var s := ApplyAll(id, VACANT, [Begin(first), Begin(second), End(0, None), End(1, None)]);
            Registered(s, second) && !Registered(s, first)
  {
    hide Registered, WithListener, ApplyAll;
    var begun := Slot(None, [Some(first), Some(second)]);
    assert ApplyAll(id, VACANT, [Begin(first), Begin(second)]) == begun by {
      BothBegin(id, first, second);
    }
    ApplyOneMore(id, VACANT, [Begin(first), Begin(second)], End(0, None));
    var through := Apply(id, begun, End(0, None));
    assert [Begin(first), Begin(second)] + [End(0, None)] == [Begin(first), Begin(second), End(0, None)];
    ApplyOneMore(id, VACANT, [Begin(first), Begin(second), End(0, None)], End(1, None));
    assert [Begin(first), Begin(second), End(0, None)] + [End(1, None)] ==
           [Begin(first), Begin(second), End(0, None), End(1, None)];
    ApplyRegistered(id, begun, End(0, None), first);
    ApplyRegistered(id, through, End(1, None), first);
    ApplyRegistered(id, through, End(1, None), second);
  }

  lemma BothBegin(id: ConfigId, first: Listener, second: Listener)
    ensures ApplyAll(id, VACANT, [Begin(first), Begin(second)]) == Slot(None, [Some(first), Some(second)])
  {
    ApplyOneMore(id, VACANT, [], Begin(first));
    assert [] + [Begin(first)] == [Begin(first)];
    ApplyOneMore(id, VACANT, [Begin(first)], Begin(second));
    assert [Begin(first)] + [Begin(second)] == [Begin(first), Begin(second)];
  }
}
