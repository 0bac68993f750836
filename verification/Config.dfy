/** The cached configuration objects and the worker that keeps them in step with the server. */
module Config {
  import opened Wrappers
  import opened ConfigModel
  import opened ConfigSync
  import opened ConfigCalls

  class CacheData {
    const id: ConfigId
    var contentType: string
    var content: string
    var md5: string
    var encryptedDataKey: string
    var lastModified: int
    var initializing: bool
    var listeners: seq<ListenerWrapper>

    constructor (id: ConfigId)
      ensures AsEntry() == NewEntry(id)
    {
      this.id, contentType, content, md5 := id, "text", "", "";
      encryptedDataKey, lastModified, initializing, listeners := "", 0, true, [];
    }

    function AsEntry(): Entry
      reads this
    {
      Entry(id, contentType, content, md5, encryptedDataKey, lastModified, initializing, listeners)
    }

    /** Registers a listener that is not registered yet, with an empty record. */
    method AddListener(listener: Listener)
      modifies this`listeners
      ensures listeners == ConfigModel.AddListener(old(listeners), listener)
      ensures if listener in Names(old(listeners)) then listeners == old(listeners)
              else listeners == old(listeners) + [ListenerWrapper("", listener)]
      ensures Names(listeners) == Names(old(listeners)) + {listener}
      ensures NoListenerTwice(old(listeners)) ==> NoListenerTwice(listeners)
    {
      hide NoListenerTwice, Names;
      Added(listeners, listener);
      var index := IndexOf(listeners, listener);
      if index.Some? {
        return;
      }
      listeners := listeners + [ListenerWrapper("", listener)];
    }

    /** Takes the wrapper of a registered listener out; the others stay as they are, the last one
        moving into the gap. */
    method RemoveListener(listener: Listener)
      modifies this`listeners
      ensures listeners == ConfigModel.RemoveListener(old(listeners), listener)
      ensures var index := IndexOf(old(listeners), listener);
              if index.None? then listeners == old(listeners)
              else multiset(listeners) == multiset(old(listeners)) - multiset{old(listeners)[index.value]}
      ensures NoListenerTwice(old(listeners)) ==>
                NoListenerTwice(listeners) && Names(listeners) == Names(old(listeners)) - {listener}
    {
      hide NoListenerTwice, Names, SwapRemove;
      Removed(listeners, listener);
      var index := IndexOf(listeners, listener);
      if index.Some? {
        listeners := SwapRemove(listeners, index.value);
      }
    }

    /** Tells every listener whose recorded md5 differs from the entry's, and records it. */
    method DispatchNotify(response: ConfigResponse) returns (sent: seq<Delivery>)
      modifies this`listeners
      ensures listeners == Updated(old(listeners), md5)
      ensures sent == Deliveries(ToTell(old(listeners), md5), response)
    {
      ghost var before := listeners;
      sent := [];
      for i := 0 to |listeners|
        invariant |listeners| == |before|
        invariant forall j :: 0 <= j < i ==> listeners[j] == ListenerWrapper(md5, before[j].listener)
        invariant forall j :: i <= j < |before| ==> listeners[j] == before[j]
        invariant sent == Deliveries(ToTell(before[..i], md5), response)
      {
        assert before[..i + 1][..i] == before[..i];
        var wrapper := listeners[i];
        if wrapper.lastMd5 == md5 {
          continue;
        }
        sent := sent + [Delivery(wrapper.listener, response)];
        listeners := listeners[i := wrapper.(lastMd5 := md5)];
      }
      assert before[..|before|] == before;
      assert listeners == Updated(before, md5);
    }

    /** Fills the entry; `None` is the panic on a missing field, which ends the calling task. */
    method FillData(response: QueryResponse) returns (notify: Option<bool>)
      modifies this
      ensures match ConfigModel.FillData(old(AsEntry()), response)
              case Filled(entry, n) => AsEntry() == entry && notify == Some(n)
              case Panicked(entry) => AsEntry() == entry && notify == None
    {
      if response.contentType.None? {
        return None;
      }
      contentType := response.contentType.value;
      if response.content.None? {
        return None;
      }
      content := response.content.value;
      if response.md5.None? {
        return None;
      }
      md5 := response.md5.value;
      encryptedDataKey := if response.encryptedDataKey.Some? then response.encryptedDataKey.value else "";
      lastModified := response.lastModified;
      if initializing {
        initializing := false;
        return Some(false);
      }
      return Some(true);
    }

    /** A fill and, when it calls for one, the dispatch that follows it. */
    method FillAndDispatch(response: QueryResponse, filter: ConfigResp -> ConfigResp)
      returns (panicked: bool, sent: seq<Delivery>)
      modifies this
      ensures AsEntry() == Refreshed(old(AsEntry()), response)
      ensures panicked <==> !response.Complete()
      ensures sent == if panicked || old(initializing) then []
                      else Deliveries(ToTell(old(listeners), md5), FilteredResponse(AsEntry(), filter))
    {
      sent := [];
      var notify := FillData(response);
      if notify.None? {
        return true, [];
      }
      panicked := false;
      if notify.value {
        var filtered := FilteredResponse(AsEntry(), filter);
        sent := DispatchNotify(filtered);
      }
    }
  }

  class ConfigWorker {
    var unifiedCache: map<string, CacheData>
    var channel: seq<string>  // changed keys not yet received
    var notifyLoopRunning: bool

    ghost predicate Valid()
      reads this, unifiedCache.Values
    {
      forall k :: k in unifiedCache ==> GroupKey(unifiedCache[k].id) == k
    }

    ghost function Current(): ConfigCache
      reads this, unifiedCache.Values
    {
      map k | k in unifiedCache :: unifiedCache[k].AsEntry()
    }

    constructor ()
      ensures Valid() && Current() == map[] && channel == [] && notifyLoopRunning
    {
      unifiedCache, channel, notifyLoopRunning := map[], [], true;
    }

    /** One pass of the list loop: reports every cached entry to the server and enqueues the keys
        it answers with. */
    method ListEnsureCacheDataNewest(answer: seq<ListenContext> -> ListReply) returns (contexts: seq<ListenContext>)
      requires Valid()
      modifies this`channel
      ensures CoversCache(contexts, Current())
      ensures channel == old(channel) + if contexts == [] then [] else Enqueued(answer(contexts))
      ensures if contexts != [] && answer(contexts).Listed? && answer(contexts).changed.Some?
              then channel == old(channel) + KeysOf(answer(contexts).changed.value)
              else channel == old(channel)
    {
      hide CoversCache;
      ghost var cache := Current();
      contexts := Contexts();
      if contexts != [] {
        var reply := answer(contexts);
        if reply.Listed? && reply.changed.Some? {
          var changed := reply.changed.value;
          ghost var before := channel;
          for i := 0 to |changed|
            invariant channel == before + KeysOf(changed)[..i]
          {
            channel := channel + [GroupKey(changed[i])];
          }
          assert KeysOf(changed)[..|changed|] == KeysOf(changed);
        }
      }
      assert Current() == cache;
    }

    method Contexts() returns (contexts: seq<ListenContext>)
      requires Valid()
      ensures CoversCache(contexts, Current())
    {
      hide GroupKey;
      contexts := [];
      var left := unifiedCache.Keys;
      while left != {}
        invariant left <= unifiedCache.Keys
        invariant forall c :: c in contexts <==>
                    && GroupKey(c.id) in unifiedCache && GroupKey(c.id) !in left
                    && unifiedCache[GroupKey(c.id)].id == c.id && unifiedCache[GroupKey(c.id)].md5 == c.md5
        decreases |left|
      {
        var key :| key in left;
        contexts := contexts + [ListenContext(unifiedCache[key].id, unifiedCache[key].md5)];
        left := left - {key};
      }
      forall c
        ensures c in contexts <==>
                GroupKey(c.id) in Current() && Current()[GroupKey(c.id)].id == c.id
                && Current()[GroupKey(c.id)].md5 == c.md5
      {
      }
    }

    /** One round of the notify loop. `server` answers the query, or fails it when the id is absent. */
    method NotifyChangeToCacheData(server: Server, filter: ConfigResp -> ConfigResp) returns (sent: seq<Delivery>)
      requires Valid() && notifyLoopRunning && channel != []
      modifies this`channel, this`notifyLoopRunning, unifiedCache.Values
      ensures Valid()
      ensures channel == old(channel)[1..]
      ensures Current() == Processed(server, old(Current()), old(channel)[0])
      ensures var key := old(channel)[0];
              && (notifyLoopRunning <==> !Stops(server, old(Current()), key))
              && sent == TellsOf(server, filter, old(Current()), key)
    {
      hide GroupKey, Refreshed, ToTell, FilteredResponse;
      var key := channel[0];
      channel := channel[1..];
      sent := [];
      if key !in unifiedCache {
        return;
      }
      var entry := unifiedCache[key];
      if entry.id !in server {
        return;
      }
      var panicked;
      panicked, sent := entry.FillAndDispatch(server[entry.id], filter);
      if panicked {
        notifyLoopRunning := false;
      }
    }

    /** The notify loop until the channel is empty or a panic ends it, after `n` keys; `told` is all
        the deliveries it makes. */
    method NotifyLoop(server: Server, filter: ConfigResp -> ConfigResp) returns (n: nat, told: seq<Told>)
      requires Valid() && notifyLoopRunning
      modifies this`channel, this`notifyLoopRunning, unifiedCache.Values
      ensures Valid()
      ensures n <= |old(channel)| && channel == old(channel)[n..]
      ensures Current() == Drained(server, old(Current()), old(channel)[..n])
      ensures told == AllTells(server, filter, old(Current()), old(channel)[..n])
      ensures forall i :: 0 <= i < n - 1 ==> !Stops(server, old(Current()), old(channel)[i])
      ensures if notifyLoopRunning then
                n == |old(channel)| && (n > 0 ==> !Stops(server, old(Current()), old(channel)[n - 1]))
              else
                n > 0 && Stops(server, old(Current()), old(channel)[n - 1])
    {
      hide *;
      ghost var start, keys := Current(), channel;
      n, told := 0, [];
      LoopBegins(server, filter, start, keys);
      while channel != [] && notifyLoopRunning
        invariant Valid()
        invariant LoopAt(server, filter, start, keys, n, channel, Current(), told, notifyLoopRunning)
        decreases |channel|
      {
        LoopStep(server, filter, start, keys, n, channel, Current(), told);
        var key := channel[0];
        var sent := NotifyChangeToCacheData(server, filter);
        told := told + ToldFor(key, sent);
        n := n + 1;
      }
      LoopEnds(server, filter, start, keys, n, channel, Current(), told, notifyLoopRunning);
    }

    /** A pass of the list loop and the notify loop after it, against one fixed server. If no reply
        it gets stops the loop, the cache converges and every listener is told exactly what it has to
        be. `enqueued` is what the pass put in the channel: of the entries the server holds, exactly
        those that differed. */
    method ListWatchRound(server: Server, answer: seq<ListenContext> -> ListReply, filter: ConfigResp -> ConfigResp)
      returns (enqueued: seq<string>, told: seq<Told>)
      requires Valid() && notifyLoopRunning
      requires ListsFrom(server, answer)
      modifies this`channel, this`notifyLoopRunning, unifiedCache.Values
      ensures Valid()
      ensures forall k :: k in old(Current()) && old(Current())[k].id in server ==>
                (k in enqueued <==> server[old(Current())[k].id].md5 != Some(old(Current())[k].md5))
      ensures notifyLoopRunning <==>
              forall k :: k in old(channel) + enqueued ==> !Stops(server, old(Current()), k)
      ensures notifyLoopRunning ==> channel == [] && Current().Keys == old(Current()).Keys
      ensures notifyLoopRunning ==>
                forall k :: k in old(Current()) ==>
                  Synced(server, old(Current())[k], k in old(channel), Current()[k])
      ensures notifyLoopRunning ==>
                forall k, l :: k in old(Current()) && NoListenerTwice(old(Current())[k].listeners) ==>
                  ToldUnder(k, l, told) ==
                  ToldInDrain(server, filter, old(Current())[k], multiset(old(channel) + enqueued)[k], l)
    {
      hide GroupKey, CoversCache, Stops, Drained, Synced, ListsWhatDiffers, KeysOf, Changed;
      hide ToldUnder, ToldInDrain, AllTells, NoListenerTwice;
      ghost var start, waiting := Current(), channel;
      var contexts := ListEnsureCacheDataNewest(answer);
      assert Current() == start;
      enqueued := if contexts == [] then [] else Enqueued(answer(contexts));
      ghost var changed := if contexts == [] then [] else Changed(answer(contexts));
      PassListsWhatDiffers(server, start, contexts, answer);
      ghost var keys := waiting + enqueued;
      assert enqueued == KeysOf(changed) && channel == keys;
      var n;
      n, told := NotifyLoop(server, filter);
      RunningIff(server, start, keys, n, notifyLoopRunning);
      assert keys[..|keys|] == keys;
      ListWatchConverges(server, start, waiting, changed);
      forall k | k in start && start[k].id in server
        ensures k in enqueued <==> server[start[k].id].md5 != Some(start[k].md5)
      {
        ListedKeys(server, start, changed, k);
      }
      forall k, l | k in start && NoListenerTwice(start[k].listeners)
        ensures ToldUnder(k, l, AllTells(server, filter, start, keys)) ==
                ToldInDrain(server, filter, start[k], multiset(keys)[k], l)
      {
        DrainTells(server, filter, start, keys, k, l);
      }
    }

    /** A whole registration that nothing interrupts; `false` is the panic of the first fill, which
        leaves no entry behind. */
    method AddListener(id: ConfigId, listener: Listener, reply: Option<QueryResponse>) returns (added: bool)
      requires Valid()
      modifies this, unifiedCache.Values
      ensures Valid()
      ensures channel == old(channel) && notifyLoopRunning == old(notifyLoopRunning)
      ensures var key := GroupKey(id);
              var known := key in old(Current());
              var created := CreatedEntry(id, reply);
              && (added <==> known || created.Some?)
              && Current() == if !added then old(Current())
                              else old(Current())[
                                key := WithListener(if known then old(Current())[key] else created.value, listener)]
    {
      hide *;
      var known := BeginAddListener(id, listener);
      if known {
        return true;
      }
      added := EndAddListener(id, listener, reply);
    }

    /** The test for the key: a known entry gets the listener at once, for an unknown one the caller
        goes on to ask the server. */
    method BeginAddListener(id: ConfigId, listener: Listener) returns (known: bool)
      requires Valid()
      modifies unifiedCache.Values
      ensures Valid()
      ensures var key := GroupKey(id);
              && (known <==> key in old(Current()))
              && Current() == if known then old(Current())[key := WithListener(old(Current())[key], listener)]
                              else old(Current())
    {
      hide GroupKey, ConfigModel.AddListener, NoListenerTwice, Names, IndexOf;
      var groupKey := GroupKey(id);
      known := groupKey in unifiedCache;
      if known {
        unifiedCache[groupKey].AddListener(listener);
      }
    }

    /** The answer has come: the created entry takes the key, whatever is there by now, and gets the
        listener. */
    method EndAddListener(id: ConfigId, listener: Listener, reply: Option<QueryResponse>) returns (added: bool)
      requires Valid()
      modifies this`unifiedCache, unifiedCache.Values
      ensures Valid()
      ensures var created := CreatedEntry(id, reply);
              && (added <==> created.Some?)
              && Current() == if added then old(Current())[GroupKey(id) := WithListener(created.value, listener)]
                              else old(Current())
      ensures fresh(unifiedCache.Values - old(unifiedCache.Values))
    {
      hide GroupKey, CreatedEntry, WithListener, CacheData.AsEntry;
      var cacheData := Created(id, reply);
      assert Current() == old(Current());
      if cacheData == null {
        return false;
      }
      hide Valid, Current;
      Insert(cacheData);
      var _ := BeginAddListener(id, listener);
      return true;
    }

    method Insert(cacheData: CacheData)
      requires Valid()
      modifies this`unifiedCache
      ensures Valid()
      ensures unifiedCache == old(unifiedCache)[GroupKey(cacheData.id) := cacheData]
      ensures Current() == old(Current())[GroupKey(cacheData.id) := cacheData.AsEntry()]
    {
      hide GroupKey;
      unifiedCache := unifiedCache[GroupKey(cacheData.id) := cacheData];
    }

    /** A new entry, filled if the server answers; null is the panic of that fill. */
    method Created(id: ConfigId, reply: Option<QueryResponse>) returns (cacheData: CacheData?)
      ensures cacheData == null <==> CreatedEntry(id, reply).None?
      ensures cacheData != null ==>
                fresh(cacheData) && cacheData.id == id && Some(cacheData.AsEntry()) == CreatedEntry(id, reply)
    {
      var created := new CacheData(id);
      if reply.Some? {
        var notify := created.FillData(reply.value);
        if notify.None? {
          return null;
        }
      }
      return created;
    }

    method RemoveListener(id: ConfigId, listener: Listener)
      requires Valid()
      modifies unifiedCache.Values
      ensures Valid()
      ensures var key := GroupKey(id);
              Current() == if key in old(Current())
                           then old(Current())[key := WithoutListener(old(Current())[key], listener)]
                           else old(Current())
    {
      hide GroupKey, ConfigModel.RemoveListener, IndexOf, NoListenerTwice, Names;
      var groupKey := GroupKey(id);
      if groupKey in unifiedCache {
        unifiedCache[groupKey].RemoveListener(listener);
      }
    }

    /** One step of the calls and of the notify loop for one key, on the objects. `calls` is the
        calls that found no entry. */
    method Happen(id: ConfigId, calls: seq<Option<Listener>>, e: ConfigCalls.Event, filter: ConfigResp -> ConfigResp)
      returns (after: seq<Option<Listener>>)
      requires Valid()
      modifies this`unifiedCache, unifiedCache.Values
      ensures Valid()
      ensures Slot(Lookup(Current(), GroupKey(id)), after) ==
              ConfigCalls.Apply(id, Slot(Lookup(old(Current()), GroupKey(id)), calls), e)
      ensures fresh(unifiedCache.Values - old(unifiedCache.Values))
    {
      hide GroupKey, CreatedEntry, WithListener, WithoutListener, Refreshed, CacheData.AsEntry;
      after := calls;
      match e
      case Begin(listener) =>
        var known := BeginAddListener(id, listener);
        if !known {
          after := calls + [Some(listener)];
        }
      case End(call, reply) =>
        if call < |calls| && calls[call].Some? {
          var _ := EndAddListener(id, calls[call].value, reply);
          after := calls[call := None];
        }
      case Unregister(listener) =>
        RemoveListener(id, listener);
      case Refresh(response) =>
        if GroupKey(id) in unifiedCache {
          var _, _ := unifiedCache[GroupKey(id)].FillAndDispatch(response, filter);
        }
    }

    /** Any interleaving of such steps. */
    method HappenAll(id: ConfigId, events: seq<ConfigCalls.Event>, filter: ConfigResp -> ConfigResp)
      returns (calls: seq<Option<Listener>>)
      requires Valid()
      modifies this`unifiedCache, unifiedCache.Values
      ensures Valid()
      ensures Slot(Lookup(Current(), GroupKey(id)), calls) ==
              ConfigCalls.ApplyAll(id, Slot(Lookup(old(Current()), GroupKey(id)), []), events)
    {
      hide GroupKey, ConfigCalls.Apply, Current, Valid;
      calls := [];
      for n := 0 to |events|
        invariant Valid()
        invariant Slot(Lookup(Current(), GroupKey(id)), calls) ==
                  ConfigCalls.ApplyAll(id, Slot(Lookup(old(Current()), GroupKey(id)), []), events[..n])
        invariant fresh(unifiedCache.Values - old(unifiedCache.Values))
      {
        assert events[..n + 1][..n] == events[..n];
        calls := Happen(id, calls, events[n], filter);
      }
      assert events[..|events|] == events;
    }
  }

  /** What a pass enqueues is what differs; without entries it asks nothing and nothing differs. */
  lemma PassListsWhatDiffers(
      server: Server, cache: ConfigCache, contexts: seq<ListenContext>, answer: seq<ListenContext> -> ListReply)
    requires WellKeyed(cache) && CoversCache(contexts, cache) && ListsFrom(server, answer)
    ensures ListsWhatDiffers(server, cache, if contexts == [] then [] else Changed(answer(contexts)))
    ensures KeysOf([]) == []
  {
    hide GroupKey;
    assert AnswersFor(server, contexts, answer(contexts));
    assert forall k :: k in cache ==> ListenContext(cache[k].id, cache[k].md5) in contexts;
    if contexts != [] {
      ReportedListsWhatDiffers(server, cache, contexts, answer(contexts));
    }
  }

  lemma RunningIff(server: Server, cache: ConfigCache, keys: seq<string>, n: nat, running: bool)
    requires n <= |keys|
    requires forall i :: 0 <= i < n - 1 ==> !Stops(server, cache, keys[i])
    requires if running then n == |keys| && (n > 0 ==> !Stops(server, cache, keys[n - 1]))
             else n > 0 && Stops(server, cache, keys[n - 1])
    ensures running <==> forall k :: k in keys ==> !Stops(server, cache, k)
  {
    hide Stops;
    if running {
      forall k | k in keys ensures !Stops(server, cache, k) {
        var i :| 0 <= i < |keys| && keys[i] == k;
        assert i < n - 1 || i == n - 1;
      }
    } else {
      assert keys[n - 1] in keys;
    }
  }

  /** The notify loop before it takes its key number `n`, or after the panic that ended it. */
  ghost predicate LoopAt(
      server: Server, filter: ConfigResp -> ConfigResp, start: ConfigCache, keys: seq<string>,
      n: nat, rest: seq<string>, cache: ConfigCache, told: seq<Told>, running: bool)
  {
    && n <= |keys| && rest == keys[n..]
    && cache == Drained(server, start, keys[..n])
    && told == AllTells(server, filter, start, keys[..n])
    && (forall i :: 0 <= i < n - 1 ==> !Stops(server, start, keys[i]))
    && (running <==> n == 0 || !Stops(server, start, keys[n - 1]))
  }

  lemma LoopBegins(server: Server, filter: ConfigResp -> ConfigResp, start: ConfigCache, keys: seq<string>)
    ensures LoopAt(server, filter, start, keys, 0, keys, start, [], true)
  {
  }

  lemma LoopEnds(
      server: Server, filter: ConfigResp -> ConfigResp, start: ConfigCache, keys: seq<string>,
      n: nat, rest: seq<string>, cache: ConfigCache, told: seq<Told>, running: bool)
    requires LoopAt(server, filter, start, keys, n, rest, cache, told, running)
    requires rest == [] || !running
    ensures n <= |keys| && rest == keys[n..]
    ensures cache == Drained(server, start, keys[..n])
    ensures told == AllTells(server, filter, start, keys[..n])
    ensures forall i :: 0 <= i < n - 1 ==> !Stops(server, start, keys[i])
    ensures if running then n == |keys| && (n > 0 ==> !Stops(server, start, keys[n - 1]))
            else n > 0 && Stops(server, start, keys[n - 1])
  {
    hide Drained, AllTells, Stops;
  }

  lemma LoopStep(
      server: Server, filter: ConfigResp -> ConfigResp, start: ConfigCache, keys: seq<string>,
      n: nat, rest: seq<string>, cache: ConfigCache, told: seq<Told>)
    requires LoopAt(server, filter, start, keys, n, rest, cache, told, true) && rest != []
    ensures LoopAt(server, filter, start, keys, n + 1, rest[1..], Processed(server, cache, rest[0]),
                   told + ToldFor(rest[0], TellsOf(server, filter, cache, rest[0])), !Stops(server, cache, rest[0]))
  {
    hide Drained, AllTells, Processed, TellsOf, ToldFor, Stops;
    assert rest[0] == keys[n] && rest[1..] == keys[n + 1..];
    QueueOneMore(server, filter, start, keys, n);
    DrainKeepsStops(server, start, keys[..n], keys[n]);
  }

  lemma DrainKeepsStops(server: Server, cache: ConfigCache, keys: seq<string>, key: string)
    ensures Stops(server, Drained(server, cache, keys), key) <==> Stops(server, cache, key)
  {
    hide Drained, Fetched;
    DrainedExactly(server, cache, keys);
    if key in cache {
      FetchedAgain(server, cache[key], multiset(keys)[key]);
    }
  }
}
