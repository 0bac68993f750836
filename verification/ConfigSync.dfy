/** List-watch on values: a list pass enqueues the keys the server says changed, and draining the
    channel queries the server for each. */
module ConfigSync {
  import opened Wrappers
  import opened ConfigModel

  type ConfigCache = map<string, Entry>

  /** Every entry stands under the key of its own id. */
  ghost predicate WellKeyed(cache: ConfigCache) {
    forall k :: k in cache ==> GroupKey(cache[k].id) == k
  }

  /** What the client tells the server about one entry. */
  datatype ListenContext = ListenContext(id: ConfigId, md5: string)

  datatype ListReply = Failed | Listed(changed: Option<seq<ConfigId>>)

  /** The keys a list pass enqueues for a reply, in order. */
  function KeysOf(changed: seq<ConfigId>): (keys: seq<string>)
    ensures |keys| == |changed|
    ensures forall i :: 0 <= i < |changed| ==> keys[i] == GroupKey(changed[i])
  {
    seq(|changed|, i requires 0 <= i < |changed| => GroupKey(changed[i]))
  }

  /** The ids a reply names. */
  function Changed(reply: ListReply): seq<ConfigId> {
    if reply.Listed? && reply.changed.Some? then reply.changed.value else []
  }

  function Enqueued(reply: ListReply): seq<string> {
    KeysOf(Changed(reply))
  }

  /** What the notify loop makes of an entry: filled, and its listeners' records brought up to date
      when the fill says so. */
  function Refreshed(e: Entry, response: QueryResponse): Entry {
    match FillData(e, response)
    case Panicked(partial) => partial
    case Filled(filled, notify) =>
      if notify then filled.(listeners := Updated(filled.listeners, filled.md5)) else filled
  }

  /** A server that answers every query from one fixed map; for an id it does not hold it fails. */
  type Server = map<ConfigId, QueryResponse>

  /** One key taken from the channel. */
  function Processed(server: Server, cache: ConfigCache, key: string): ConfigCache {
    if key in cache && cache[key].id in server then
      cache[key := Refreshed(cache[key], server[cache[key].id])]
    else
      cache
  }

  function Drained(server: Server, cache: ConfigCache, keys: seq<string>): ConfigCache {
    if keys == [] then cache
    else Processed(server, Drained(server, cache, keys[..|keys| - 1]), keys[|keys| - 1])
  }

  /** The query for the key panics: its reply lacks a field the client insists on. */
  predicate Stops(server: Server, cache: ConfigCache, key: string) {
    key in cache && cache[key].id in server && !server[cache[key].id].Complete()
  }

  /** The contexts of all entries, in whatever order the cache is walked. */
  ghost predicate CoversCache(contexts: seq<ListenContext>, cache: ConfigCache) {
    forall c :: c in contexts <==>
      GroupKey(c.id) in cache && cache[GroupKey(c.id)].id == c.id && cache[GroupKey(c.id)].md5 == c.md5
  }

  /** The server answers list requests from the same map: of what it is asked about it lists exactly
      what has another md5 there. For an id it does not hold it may say either. */
  ghost predicate ListsFrom(server: Server, answer: seq<ListenContext> -> ListReply) {
    forall contexts :: AnswersFor(server, contexts, answer(contexts))
  }

  ghost predicate AnswersFor(server: Server, contexts: seq<ListenContext>, reply: ListReply) {
    && reply.Listed?
    && (reply.changed.Some? ==> forall id :: id in reply.changed.value ==> exists c :: c in contexts && c.id == id)
    && (forall id :: id in server ==>
          (reply.changed.Some? && id in reply.changed.value <==>
           exists c :: c in contexts && c.id == id && server[id].md5 != Some(c.md5)))
  }

  /** The ids listed are exactly the cached ones whose md5 is not the server's. */
  ghost predicate ListsWhatDiffers(server: Server, cache: ConfigCache, changed: seq<ConfigId>) {
    && (forall id :: id in changed ==> GroupKey(id) in cache && cache[GroupKey(id)].id == id)
    && (forall k :: k in cache && cache[k].id in server ==>
          (cache[k].id in changed <==> server[cache[k].id].md5 != Some(cache[k].md5)))
  }

  /** Asked about every entry, the server lists exactly the entries that differ. */
  lemma ReportedListsWhatDiffers(server: Server, cache: ConfigCache, contexts: seq<ListenContext>, reply: ListReply)
    requires WellKeyed(cache) && CoversCache(contexts, cache) && AnswersFor(server, contexts, reply)
    ensures ListsWhatDiffers(server, cache, Changed(reply))
  {
    hide GroupKey;
    forall k | k in cache && cache[k].id in server
      ensures cache[k].id in Changed(reply) <==> server[cache[k].id].md5 != Some(cache[k].md5)
    {
      assert ListenContext(cache[k].id, cache[k].md5) in contexts;
    }
  }

  /** The entry holds exactly what the server sent for it. */
  ghost predicate Holds(e: Entry, response: QueryResponse) {
    && Some(e.contentType) == response.contentType
    && Some(e.content) == response.content
    && Some(e.md5) == response.md5
    && e.encryptedDataKey == (if response.encryptedDataKey.Some? then response.encryptedDataKey.value else "")
    && e.lastModified == response.lastModified
    && !e.initializing
  }

  /** Every listener of the entry has the entry's md5 on record. */
  ghost predicate AllTold(e: Entry) {
    forall i :: 0 <= i < |e.listeners| ==> e.listeners[i].lastMd5 == e.md5
  }

  lemma RefreshedHolds(e: Entry, response: QueryResponse)
    ensures Refreshed(e, response).id == e.id
    ensures response.Complete() ==> Holds(Refreshed(e, response), response)
    ensures response.Complete() && !e.initializing ==> AllTold(Refreshed(e, response))
    ensures !response.Complete() ==>
              Refreshed(Refreshed(e, response), response) == Refreshed(e, response)
  {
  }

  /** What draining a queue of keys does to one entry. */
  ghost predicate Drain(server: Server, before: Entry, queued: bool, after: Entry) {
    && after.id == before.id
    && if queued && before.id in server then
         var response := server[before.id];
         if response.Complete() then Holds(after, response) && (before.initializing || AllTold(after))
         else after == Refreshed(before, response)
       else after == before
  }

  /** An entry whose key is taken from the channel the given number of times. A third time changes
      nothing any more, nor does a second one for an entry that was filled before. */
  function Fetched(server: Server, e: Entry, times: nat): Entry {
    if times == 0 || e.id !in server then e
    else
      var once := Refreshed(e, server[e.id]);
      if times == 1 then once else Refreshed(once, server[e.id])
  }

  lemma FetchedAgain(server: Server, e: Entry, times: nat)
    ensures Fetched(server, e, times).id == Fetched(server, e, times + 1).id == e.id
    ensures e.id !in server ==> Fetched(server, e, times) == e
    ensures Fetched(server, e, times + 1) ==
            if e.id in server then Refreshed(Fetched(server, e, times), server[e.id]) else e
  {
    if e.id in server && times >= 2 {
      var once := Refreshed(e, server[e.id]);
      RefreshedTwice(e, server[e.id]);
    }
    if e.id in server {
      RefreshedHolds(e, server[e.id]);
      RefreshedHolds(Refreshed(e, server[e.id]), server[e.id]);
    }
  }

  lemma RefreshedTwice(e: Entry, response: QueryResponse)
    ensures var twice := Refreshed(Refreshed(e, response), response);
            Refreshed(twice, response) == twice && twice.id == e.id
  {
    var twice := Refreshed(Refreshed(e, response), response);
    if response.Complete() {
      assert Updated(Updated(e.listeners, twice.md5), twice.md5) == Updated(e.listeners, twice.md5);
    }
  }

  /** Every entry stands as its key's takings from the channel leave it. */
  ghost predicate FetchedEach(server: Server, cache: ConfigCache, counts: multiset<string>, after: ConfigCache) {
    after.Keys == cache.Keys && forall k :: k in cache ==> after[k] == Fetched(server, cache[k], counts[k])
  }

  lemma ProcessedFetches(server: Server, cache: ConfigCache, counts: multiset<string>, now: ConfigCache, key: string)
    requires FetchedEach(server, cache, counts, now)
    ensures FetchedEach(server, cache, counts + multiset{key}, Processed(server, now, key))
  {
    hide Refreshed, Fetched;
    if key in cache {
      FetchedAgain(server, cache[key], counts[key]);
    }
  }

  /** What draining any queue of keys makes of each entry, exactly. */
  lemma {:induction false} DrainedExactly(server: Server, cache: ConfigCache, keys: seq<string>)
    ensures FetchedEach(server, cache, multiset(keys), Drained(server, cache, keys))
  {
    hide Fetched, Processed;
    if keys == [] {
      forall k | k in cache ensures Fetched(server, cache[k], 0) == cache[k] {
        NotFetched(server, cache[k]);
      }
    } else {
      hide FetchedEach;
      var front, key := keys[..|keys| - 1], keys[|keys| - 1];
      DrainedExactly(server, cache, front);
      assert multiset(keys) == multiset(front) + multiset{key} by {
        assert keys == front + [key];
      }
      ProcessedFetches(server, cache, multiset(front), Drained(server, cache, front), key);
    }
  }

  lemma NotFetched(server: Server, e: Entry)
    ensures Fetched(server, e, 0) == e
  {
  }

  lemma FetchedDrains(server: Server, e: Entry, times: nat)
    ensures Drain(server, e, times > 0, Fetched(server, e, times))
  {
    hide Refreshed, Holds, AllTold;
    if e.id in server {
      RefreshedHolds(e, server[e.id]);
      RefreshedHolds(Refreshed(e, server[e.id]), server[e.id]);
    }
  }

  /** So one that is queued and held by the server is filled, and its listeners are up to date unless
      it had never been filled before; any other is untouched. */
  lemma DrainEffect(server: Server, cache: ConfigCache, keys: seq<string>)
    requires WellKeyed(cache)
    ensures var after := Drained(server, cache, keys);
            && WellKeyed(after)
            && after.Keys == cache.Keys
            && forall k :: k in cache ==> Drain(server, cache[k], k in keys, after[k])
  {
    hide GroupKey, Refreshed, Fetched, Drain, Drained;
    DrainedExactly(server, cache, keys);
    var after := Drained(server, cache, keys);
    forall k | k in cache ensures after[k].id == cache[k].id && Drain(server, cache[k], k in keys, after[k]) {
      FetchedAgain(server, cache[k], multiset(keys)[k]);
      FetchedDrains(server, cache[k], multiset(keys)[k]);
    }
  }

  lemma ListedKeys(server: Server, cache: ConfigCache, changed: seq<ConfigId>, k: string)
    requires WellKeyed(cache) && ListsWhatDiffers(server, cache, changed)
    requires k in cache && cache[k].id in server
    ensures k in KeysOf(changed) <==> server[cache[k].id].md5 != Some(cache[k].md5)
  {
    if k in KeysOf(changed) {
      var i :| 0 <= i < |changed| && GroupKey(changed[i]) == k;
      assert changed[i] in changed;
    }
    if cache[k].id in changed {
      var i :| 0 <= i < |changed| && changed[i] == cache[k].id;
      assert KeysOf(changed)[i] == k;
    }
  }

  /** What a list pass against a fixed server and the drained channel make of one entry: it is drained
      as queued if it was waiting or differed, and untouched otherwise. So either way a complete
      configuration's md5 is there, and its content unless the same md5 stood for another one. */
  ghost predicate Synced(server: Server, before: Entry, waiting: bool, after: Entry) {
    var differs := before.id in server && server[before.id].md5 != Some(before.md5);
    && Drain(server, before, waiting || differs, after)
    && (before.id in server && server[before.id].Complete() ==>
          var response := server[before.id];
          && Some(after.md5) == response.md5
          && (Some(after.content) == response.content <==>
              waiting || differs || Some(before.content) == response.content))
  }

  /** One list pass against a fixed server, with whatever was already waiting in the channel, and
      the channel drained. Every queued entry the server holds completely is then as the server has
      it, with its listeners up to date unless it had never been filled; every other one it holds has
      the server's md5 anyway; what was not queued or is not held is as it was. */
  lemma ListWatchConverges(server: Server, cache: ConfigCache, waiting: seq<string>, changed: seq<ConfigId>)
    requires WellKeyed(cache) && ListsWhatDiffers(server, cache, changed)
    ensures var after := Drained(server, cache, waiting + KeysOf(changed));
            && after.Keys == cache.Keys
            && forall k :: k in cache ==> Synced(server, cache[k], k in waiting, after[k])
  {
    hide GroupKey, KeysOf, AllTold, Drained, ListsWhatDiffers, Refreshed;
    var keys := waiting + KeysOf(changed);
    DrainEffect(server, cache, keys);
    forall k | k in cache && cache[k].id in server
      ensures k in keys <==> k in waiting || server[cache[k].id].md5 != Some(cache[k].md5)
    {
      ListedKeys(server, cache, changed, k);
    }
  }

  /** A cached md5 stands for its content. */
  ghost predicate Md5Faithful(server: Server, cache: ConfigCache) {
    forall k :: k in cache && cache[k].id in server && server[cache[k].id].md5 == Some(cache[k].md5) ==>
      server[cache[k].id].content == Some(cache[k].content)
  }

  /** After a pass, the next one enqueues no key that the server holds completely; when md5s stand
      for contents, every such entry already has the server's content. */
  lemma SecondPassIsQuiet(
      server: Server, cache: ConfigCache, waiting: seq<string>, changed: seq<ConfigId>, again: seq<ConfigId>)
    requires WellKeyed(cache) && ListsWhatDiffers(server, cache, changed)
    requires ListsWhatDiffers(server, Drained(server, cache, waiting + KeysOf(changed)), again)
    ensures var after := Drained(server, cache, waiting + KeysOf(changed));
            && (forall k :: k in KeysOf(again) ==>
                  k in after && (after[k].id in server ==> !server[after[k].id].Complete()))
            && (Md5Faithful(server, cache) ==>
                  forall k :: k in cache && cache[k].id in server && server[cache[k].id].Complete() ==>
                    k in after && Some(after[k].content) == server[cache[k].id].content)
  {
    hide GroupKey, Drained, Refreshed;
    var after := Drained(server, cache, waiting + KeysOf(changed));
    ListWatchConverges(server, cache, waiting, changed);
    DrainEffect(server, cache, waiting + KeysOf(changed));
    forall k | k in KeysOf(again)
      ensures k in after && (after[k].id in server ==> !server[after[k].id].Complete())
    {
      var i :| 0 <= i < |again| && GroupKey(again[i]) == k;
      assert again[i] in again;
      hide ListsWhatDiffers, KeysOf;
      if after[k].id in server {
        ListedKeys(server, after, again, k);
      }
    }
  }

  // ---------------------------------------------------------------- who is told

  /** What the listeners of one dispatch are handed. */
  datatype Delivery = Delivery(listener: Listener, response: ConfigResponse)

  function Deliveries(listeners: seq<Listener>, response: ConfigResponse): seq<Delivery> {
    seq(|listeners|, i requires 0 <= i < |listeners| => Delivery(listeners[i], response))
  }

  /** A delivery with the key it was made for. */
  datatype Told = Told(key: string, delivery: Delivery)

  function ToldFor(key: string, sent: seq<Delivery>): seq<Told> {
    seq(|sent|, i requires 0 <= i < |sent| => Told(key, sent[i]))
  }

  /** The deliveries of one key taken from the channel. */
  function TellsOf(server: Server, filter: ConfigResp -> ConfigResp, cache: ConfigCache, key: string): seq<Delivery> {
    if key !in cache || cache[key].id !in server || Stops(server, cache, key) || cache[key].initializing then []
    else
      var after := Refreshed(cache[key], server[cache[key].id]);
      Deliveries(ToTell(cache[key].listeners, after.md5), FilteredResponse(after, filter))
  }

  /** The deliveries of a whole queue. */
  function AllTells(
      server: Server, filter: ConfigResp -> ConfigResp, cache: ConfigCache, keys: seq<string>): seq<Told>
  {
    if keys == [] then []
    else
      var front, key := keys[..|keys| - 1], keys[|keys| - 1];
      AllTells(server, filter, cache, front) + ToldFor(key, TellsOf(server, filter, Drained(server, cache, front), key))
  }

  /** What one listener was told for one key, in order. */
  function ToldUnder(key: string, listener: Listener, told: seq<Told>): seq<ConfigResponse> {
    if told == [] then []
    else
      var last := told[|told| - 1];
      ToldUnder(key, listener, told[..|told| - 1])
      + if last.key == key && last.delivery.listener == listener then [last.delivery.response] else []
  }

  /** The listener's record is not the md5. */
  ghost predicate Stale(e: Entry, listener: Listener, md5: string) {
    exists i :: 0 <= i < |e.listeners| && e.listeners[i].listener == listener && e.listeners[i].lastMd5 != md5
  }

  /** A complete configuration reaches the listener when its record is stale and the entry was filled
      before, be it by the first of two takings from the channel. */
  ghost predicate Reaches(server: Server, e: Entry, times: nat, listener: Listener) {
    && e.id in server && server[e.id].Complete()
    && Stale(e, listener, server[e.id].md5.value)
    && times > (if e.initializing then 1 else 0)
  }

  ghost function ToldInDrain(
      server: Server, filter: ConfigResp -> ConfigResp, e: Entry, times: nat, listener: Listener): seq<ConfigResponse>
  {
    if Reaches(server, e, times, listener) then [NewsOf(e.id, server[e.id], filter)] else []
  }

  lemma ToldUnderOneMore(key: string, listener: Listener, told: seq<Told>, last: Told)
    ensures ToldUnder(key, listener, told + [last]) ==
            ToldUnder(key, listener, told)
            + if last.key == key && last.delivery.listener == listener then [last.delivery.response] else []
  {
    assert (told + [last])[..|told|] == told;
  }

  lemma {:induction false} ToldUnderAppend(key: string, listener: Listener, told: seq<Told>, more: seq<Told>)
    ensures ToldUnder(key, listener, told + more) == ToldUnder(key, listener, told) + ToldUnder(key, listener, more)
  {
    if more == [] {
      assert told + more == told;
    } else {
      hide *;
      var front, last := more[..|more| - 1], more[|more| - 1];
      var mine := if last.key == key && last.delivery.listener == listener then [last.delivery.response] else [];
      ToldUnderAppend(key, listener, told, front);
      assert more == front + [last];
      Associates(told, front, [last]);
      ToldUnderOneMore(key, listener, front, last);
      ToldUnderOneMore(key, listener, told + front, last);
      Associates(ToldUnder(key, listener, told), ToldUnder(key, listener, front), mine);
    }
  }

  lemma {:induction false} ToldForListeners(
      key: string, listener: Listener, listeners: seq<Listener>, response: ConfigResponse)
    requires forall i, j :: 0 <= i < j < |listeners| ==> listeners[i] != listeners[j]
    ensures ToldUnder(key, listener, ToldFor(key, Deliveries(listeners, response))) ==
            if listener in listeners then [response] else []
  {
    var told := ToldFor(key, Deliveries(listeners, response));
    if listeners != [] {
      var front, last := listeners[..|listeners| - 1], listeners[|listeners| - 1];
      ToldForListeners(key, listener, front, response);
      assert told[..|told| - 1] == ToldFor(key, Deliveries(front, response));
      assert listeners == front + [last];
      assert last !in front;
    }
  }

  lemma {:induction false} ToldForOther(key: string, listener: Listener, at: string, sent: seq<Delivery>)
    requires at != key
    ensures ToldUnder(key, listener, ToldFor(at, sent)) == []
  {
    if sent != [] {
      ToldForOther(key, listener, at, sent[..|sent| - 1]);
      var told := ToldFor(at, sent);
      assert told[..|told| - 1] == ToldFor(at, sent[..|sent| - 1]);
    }
  }

  lemma {:induction false} ToTellOnce(listeners: seq<ListenerWrapper>, md5: string)
    requires NoListenerTwice(listeners)
    ensures var tell := ToTell(listeners, md5); forall i, j :: 0 <= i < j < |tell| ==> tell[i] != tell[j]
  {
    if listeners != [] {
      var front, last := listeners[..|listeners| - 1], listeners[|listeners| - 1];
      assert forall i :: 0 <= i < |front| ==> front[i].listener != last.listener;
      ToTellOnce(front, md5);
      ToTellExactly(front, md5, last.listener);
    }
  }

  /** What one taking from the channel tells one listener. */
  lemma RoundTells(
      server: Server, filter: ConfigResp -> ConfigResp, cache: ConfigCache, key: string, listener: Listener)
    requires key in cache && NoListenerTwice(cache[key].listeners)
    ensures ToldUnder(key, listener, ToldFor(key, TellsOf(server, filter, cache, key))) ==
            if cache[key].initializing then [] else ToldInDrain(server, filter, cache[key], 1, listener)
  {
    hide NoListenerTwice, Refreshed, FilteredResponse, ToTell, ToldUnder;
    var e := cache[key];
    if e.id in server && server[e.id].Complete() && !e.initializing {
      var after := Refreshed(e, server[e.id]);
      RefreshedHolds(e, server[e.id]);
      ToTellOnce(e.listeners, after.md5);
      ToTellExactly(e.listeners, after.md5, listener);
      ToldForListeners(key, listener, ToTell(e.listeners, after.md5), FilteredResponse(after, filter));
      RefreshedNews(e, server[e.id], filter);
    } else {
      ToldForListeners(key, listener, [], ConfigResponse(e.id, "", "", ""));
      assert Deliveries([], ConfigResponse(e.id, "", "", "")) == [];
    }
  }

  lemma RefreshedNews(e: Entry, response: QueryResponse, filter: ConfigResp -> ConfigResp)
    requires response.Complete()
    ensures FilteredResponse(Refreshed(e, response), filter) == NewsOf(e.id, response, filter)
  {
  }

  /** One more taking from the channel, against what was told before it. */
  lemma FetchedTells(server: Server, filter: ConfigResp -> ConfigResp, e: Entry, times: nat, listener: Listener)
    ensures var now := Fetched(server, e, times);
            ToldInDrain(server, filter, e, times + 1, listener) ==
            ToldInDrain(server, filter, e, times, listener)
            + if now.initializing then [] else ToldInDrain(server, filter, now, 1, listener)
  {
  }

  lemma FetchedNames(server: Server, e: Entry, times: nat)
    requires NoListenerTwice(e.listeners)
    ensures NoListenerTwice(Fetched(server, e, times).listeners)
  {
    hide NoListenerTwice;
    if e.id in server {
      RefreshedNames(e, server[e.id]);
      RefreshedNames(Refreshed(e, server[e.id]), server[e.id]);
    }
  }

  lemma RefreshedNames(e: Entry, response: QueryResponse)
    ensures Names(Refreshed(e, response).listeners) == Names(e.listeners)
    ensures NoListenerTwice(e.listeners) ==> NoListenerTwice(Refreshed(e, response).listeners)
  {
    hide NoListenerTwice, Names;
    UpdatedNames(e.listeners, FillData(e, response).entry.md5);
  }

  /** Exactly what draining a queue tells each listener of each entry: the new configuration, once,
      if it reaches the listener, and nothing otherwise. */
  lemma {:induction false} DrainTells(
      server: Server, filter: ConfigResp -> ConfigResp, cache: ConfigCache, keys: seq<string>,
      key: string, listener: Listener)
    requires key in cache && NoListenerTwice(cache[key].listeners)
    ensures ToldUnder(key, listener, AllTells(server, filter, cache, keys)) ==
            ToldInDrain(server, filter, cache[key], multiset(keys)[key], listener)
  {
    hide *;
    if keys == [] {
      NothingQueued(server, filter, cache, key, listener);
    } else {
      var front, at := keys[..|keys| - 1], keys[|keys| - 1];
      DrainTells(server, filter, cache, front, key, listener);
      TellsOneMore(server, filter, cache, front, at, key, listener);
      CountOneMore(front, at, key);
      assert keys == front + [at];
      if at == key {
        FetchedTells(server, filter, cache[key], multiset(front)[key], listener);
      } else {
        var told := ToldUnder(key, listener, AllTells(server, filter, cache, front));
        assert told + [] == told;
      }
    }
  }

  lemma CountOneMore(front: seq<string>, at: string, key: string)
    ensures multiset(front + [at])[key] == multiset(front)[key] + if at == key then 1 else 0
  {
  }

  lemma QueueOneMore(
      server: Server, filter: ConfigResp -> ConfigResp, cache: ConfigCache, keys: seq<string>, n: nat)
    requires n < |keys|
    ensures var now := Drained(server, cache, keys[..n]);
            && Drained(server, cache, keys[..n + 1]) == Processed(server, now, keys[n])
            && AllTells(server, filter, cache, keys[..n + 1]) ==
               AllTells(server, filter, cache, keys[..n]) + ToldFor(keys[n], TellsOf(server, filter, now, keys[n]))
  {
    hide Processed, TellsOf;
    assert keys[..n + 1][..n] == keys[..n];
  }

  /** What the key taken last adds to what a listener is told. */
  lemma TellsOneMore(
      server: Server, filter: ConfigResp -> ConfigResp, cache: ConfigCache, front: seq<string>, at: string,
      key: string, listener: Listener)
    requires key in cache && NoListenerTwice(cache[key].listeners)
    ensures var now := Fetched(server, cache[key], multiset(front)[key]);
            ToldUnder(key, listener, AllTells(server, filter, cache, front + [at])) ==
            ToldUnder(key, listener, AllTells(server, filter, cache, front))
            + if at != key || now.initializing then [] else ToldInDrain(server, filter, now, 1, listener)
  {
    assert (front + [at])[..|front|] == front;
    hide TellsOf, Drained, ToldInDrain, NoListenerTwice, ToldFor, ToldUnder, Fetched;
    var now := Drained(server, cache, front);
    var sent := TellsOf(server, filter, now, at);
    ToldUnderAppend(key, listener, AllTells(server, filter, cache, front), ToldFor(at, sent));
    if at == key {
      DrainedExactly(server, cache, front);
      FetchedNames(server, cache[key], multiset(front)[key]);
      RoundTells(server, filter, now, key, listener);
    } else {
      ToldForOther(key, listener, at, sent);
    }
  }

  lemma NothingQueued(
      server: Server, filter: ConfigResp -> ConfigResp, cache: ConfigCache, key: string, listener: Listener)
    requires key in cache
    ensures ToldUnder(key, listener, AllTells(server, filter, cache, [])) ==
            ToldInDrain(server, filter, cache[key], multiset([])[key], listener)
  {
  }
}
