/** The service-info emitter: what a pushed or polled snapshot does to the cache and the event
    channel. `EmitStep` is one emit on values; the class updates the two in place. */
module Emitter {
  import opened Wrappers
  import opened HostDiff
  import opened ServiceInfos

  type ServiceCache = map<string, ServiceInfo>

  /** The hosts of a snapshot as a last-wins map. */
  function HostsOf(info: ServiceInfo): HostMap {
    if info.hosts.Some? then Hosts(info.hosts.value) else map[]
  }

  predicate IsOutdatedData(cached: ServiceInfo, info: ServiceInfo) {
    cached.lastRefTime > info.lastRefTime
  }

  predicate IsEmptyOrErrorPush(pushEmptyProtection: bool, info: ServiceInfo) {
    info.hosts.None? || (pushEmptyProtection && !info.Validate())
  }

  predicate IsChangedServiceInfo(cached: Option<ServiceInfo>, info: ServiceInfo) {
    match cached
    case None => true
    case Some(c) =>
      && !IsOutdatedData(c, info)
      && !(info.hosts.None? && c.hosts.None?)
      && (info.hosts.None? || c.hosts.None? || HostsOf(c) != HostsOf(info))
  }

  predicate Accepts(pushEmptyProtection: bool, cache: ServiceCache, info: ServiceInfo) {
    && !IsEmptyOrErrorPush(pushEmptyProtection, info)
    && IsChangedServiceInfo(Lookup(cache, info.Key()), info)
  }

  /** The cache, and every event enqueued so far in order. */
  datatype Feed = Feed(cache: ServiceCache, events: seq<ServiceInfo>)

  function EmitStep(pushEmptyProtection: bool, feed: Feed, info: ServiceInfo): Feed {
    if Accepts(pushEmptyProtection, feed.cache, info) then
      Feed(feed.cache[info.Key() := info], feed.events + [info])
    else
      feed
  }

  function EmitAll(pushEmptyProtection: bool, feed: Feed, infos: seq<ServiceInfo>): Feed {
    if infos == [] then feed
    else EmitStep(pushEmptyProtection, EmitAll(pushEmptyProtection, feed, infos[..|infos| - 1]), infos[|infos| - 1])
  }

  /** A reader that only sees the events and stores each under its key. */
  function Replay(cache: ServiceCache, events: seq<ServiceInfo>): ServiceCache {
    if events == [] then cache
    else
      var last := events[|events| - 1];
      Replay(cache, events[..|events| - 1])[last.Key() := last]
  }

  // ---------------------------------------------------------------- one emit

  /** An emit enqueues an event exactly when it changes the cache, and then both concern the
      emitted snapshot and its key only. */
  lemma EnqueuedIffReplaced(pushEmptyProtection: bool, feed: Feed, info: ServiceInfo)
    ensures var after := EmitStep(pushEmptyProtection, feed, info);
            && (after.cache != feed.cache <==> Accepts(pushEmptyProtection, feed.cache, info))
            && (after.cache == feed.cache ==> after.events == feed.events)
            && (after.cache != feed.cache ==>
                  && after.events == feed.events + [info]
                  && info.Key() in after.cache && after.cache[info.Key()] == info)
            && (forall k :: k != info.Key() ==> Lookup(after.cache, k) == Lookup(feed.cache, k))
  {
    if Accepts(pushEmptyProtection, feed.cache, info) && info.Key() in feed.cache {
      var cached := feed.cache[info.Key()];
      assert cached != info;
      var after := EmitStep(pushEmptyProtection, feed, info);
      assert after.cache[info.Key()] != feed.cache[info.Key()];
    }
  }

  /** What the push check lets through, field by field. */
  ghost predicate Passes(pushEmptyProtection: bool, info: ServiceInfo) {
    info.hosts.Some? && (pushEmptyProtection ==> MarkedComplete(info) || HasUsableHost(info))
  }

  lemma PassesIff(pushEmptyProtection: bool, info: ServiceInfo)
    ensures Passes(pushEmptyProtection, info) <==> !IsEmptyOrErrorPush(pushEmptyProtection, info)
  {
    hide ServiceInfo.Validate, MarkedComplete, HasUsableHost;
    ValidateIff(info);
  }

  /** Exactly when an emit changes anything, field by field, and what it changes: the snapshot passes
      the push check, and nothing is cached for its key or the cached one is not newer and has other
      hosts. */
  lemma EmitIff(pushEmptyProtection: bool, feed: Feed, info: ServiceInfo)
    ensures EmitStep(pushEmptyProtection, feed, info) ==
            if && Passes(pushEmptyProtection, info)
               && (info.Key() in feed.cache ==>
                     var cached := feed.cache[info.Key()];
                     && cached.lastRefTime <= info.lastRefTime
                     && (cached.hosts.None? || Hosts(cached.hosts.value) != Hosts(info.hosts.value)))
            then Feed(feed.cache[info.Key() := info], feed.events + [info])
            else feed
  {
    hide ServiceInfo.Validate, ServiceInfo.Key, Hosts, MarkedComplete, HasUsableHost;
    PassesIff(pushEmptyProtection, info);
  }

  /** After an emit that is neither protected out nor outdated, the cached hosts are the emitted
      ones, whether or not the snapshot itself was stored. */
  lemma EmittedHostsAreCached(pushEmptyProtection: bool, feed: Feed, info: ServiceInfo)
    requires Passes(pushEmptyProtection, info)
    requires info.Key() in feed.cache ==> feed.cache[info.Key()].lastRefTime <= info.lastRefTime
    ensures var after := EmitStep(pushEmptyProtection, feed, info);
            && info.Key() in after.cache
            && after.cache[info.Key()].hosts.Some?
            && HostsOf(after.cache[info.Key()]) == HostsOf(info)
            && after.cache[info.Key()].lastRefTime <= info.lastRefTime
  {
    hide ServiceInfo.Validate, Passes;
    PassesIff(pushEmptyProtection, info);
    assert info.hosts.Some?;
  }

  // ---------------------------------------------------------------- whole runs

  /** The event log is the cache: replaying the new events over the old cache gives the new one. */
  lemma {:induction false} EventLogIsCache(pushEmptyProtection: bool, feed: Feed, infos: seq<ServiceInfo>)
    ensures var after := EmitAll(pushEmptyProtection, feed, infos);
            && feed.events <= after.events
            && Replay(feed.cache, after.events[|feed.events|..]) == after.cache
            && |after.events| <= |feed.events| + |infos|
  {
    hide Accepts, ServiceInfo.Key;
    if infos != [] {
      var n := |infos| - 1;
      EventLogIsCache(pushEmptyProtection, feed, infos[..n]);
      var before := EmitAll(pushEmptyProtection, feed, infos[..n]);
      var after := EmitStep(pushEmptyProtection, before, infos[n]);
      var tail := after.events[|feed.events|..];
      if after != before {
        assert tail[..|tail| - 1] == before.events[|feed.events|..];
        assert tail[|tail| - 1] == infos[n];
      }
    } else {
      assert feed.events[|feed.events|..] == [];
    }
  }

  ghost predicate CacheInv(pushEmptyProtection: bool, cache: ServiceCache) {
    forall k :: k in cache ==>
      && cache[k].Key() == k
      && cache[k].hosts.Some?
      && (pushEmptyProtection ==> MarkedComplete(cache[k]) || HasUsableHost(cache[k]))
  }

  /** No entry is dropped and no entry's timestamp goes back. */
  ghost predicate TimeMovesOn(earlier: ServiceCache, later: ServiceCache) {
    forall k :: k in earlier ==> k in later && earlier[k].lastRefTime <= later[k].lastRefTime
  }

  lemma EmitKeeps(pushEmptyProtection: bool, feed: Feed, info: ServiceInfo)
    ensures TimeMovesOn(feed.cache, EmitStep(pushEmptyProtection, feed, info).cache)
    ensures CacheInv(pushEmptyProtection, feed.cache) ==>
              CacheInv(pushEmptyProtection, EmitStep(pushEmptyProtection, feed, info).cache)
  {
    hide ServiceInfo.Validate, ServiceInfo.Key, HostsOf, MarkedComplete, HasUsableHost;
    ValidateIff(info);
  }

  /** Over every run: timestamps never go back, and a cache that starts with entries that have
      hosts, and under protection are usable, or that starts empty, keeps holding only such entries. */
  lemma {:induction false} EveryRunKeeps(pushEmptyProtection: bool, feed: Feed, infos: seq<ServiceInfo>)
    ensures TimeMovesOn(feed.cache, EmitAll(pushEmptyProtection, feed, infos).cache)
    ensures CacheInv(pushEmptyProtection, feed.cache) ==>
              CacheInv(pushEmptyProtection, EmitAll(pushEmptyProtection, feed, infos).cache)
    ensures CacheInv(pushEmptyProtection, map[])
  {
    if infos != [] {
      var n := |infos| - 1;
      EveryRunKeeps(pushEmptyProtection, feed, infos[..n]);
      EmitKeeps(pushEmptyProtection, EmitAll(pushEmptyProtection, feed, infos[..n]), infos[n]);
    }
  }

  // ---------------------------------------------------------------- does the latest win

  /** The snapshot takes the place of the cached one: it passes the push check, is not older than
      the cached timestamp and brings other hosts. */
  ghost predicate Overtakes(pushEmptyProtection: bool, cached: ServiceInfo, info: ServiceInfo) {
    && info.Key() == cached.Key()
    && Passes(pushEmptyProtection, info)
    && cached.lastRefTime <= info.lastRefTime
    && HostsOf(cached) != HostsOf(info)
  }

  lemma EmitOntoCached(pushEmptyProtection: bool, feed: Feed, key: string, info: ServiceInfo)
    requires key in feed.cache && feed.cache[key].Key() == key && feed.cache[key].hosts.Some?
    ensures Lookup(EmitStep(pushEmptyProtection, feed, info).cache, key) ==
            Some(if Overtakes(pushEmptyProtection, feed.cache[key], info) then info else feed.cache[key])
  {
    hide ServiceInfo.Key, ServiceInfo.Validate, HostsOf, Passes;
    PassesIff(pushEmptyProtection, info);
  }

  lemma {:induction false} NotOvertaken(pushEmptyProtection: bool, feed: Feed, key: string, later: seq<ServiceInfo>)
    requires key in feed.cache && feed.cache[key].Key() == key && feed.cache[key].hosts.Some?
    requires forall i :: 0 <= i < |later| ==> !Overtakes(pushEmptyProtection, feed.cache[key], later[i])
    ensures Lookup(EmitAll(pushEmptyProtection, feed, later).cache, key) == Some(feed.cache[key])
  {
    hide Overtakes, EmitStep, ServiceInfo.Key;
    if later != [] {
      var n := |later| - 1;
      NotOvertaken(pushEmptyProtection, feed, key, later[..n]);
      EmitOntoCached(pushEmptyProtection, EmitAll(pushEmptyProtection, feed, later[..n]), key, later[n]);
    }
  }

  /** The cached hosts of a key have been the same at every point of the run. */
  ghost predicate HostsHeld(pushEmptyProtection: bool, feed: Feed, key: string, later: seq<ServiceInfo>)
    requires key in feed.cache
  {
    forall n :: 0 <= n <= |later| ==>
      var cache := EmitAll(pushEmptyProtection, feed, later[..n]).cache;
      key in cache && HostsOf(cache[key]) == HostsOf(feed.cache[key])
  }

  /** Cached hosts outlast a run exactly when nothing in it overtakes the entry they are cached in.
      What counts is the timestamp of that entry, not of the latest snapshot that confirmed it. */
  lemma HostsHeldIff(pushEmptyProtection: bool, feed: Feed, key: string, later: seq<ServiceInfo>)
    requires key in feed.cache && feed.cache[key].Key() == key && feed.cache[key].hosts.Some?
    ensures HostsHeld(pushEmptyProtection, feed, key, later) <==>
            forall i :: 0 <= i < |later| ==> !Overtakes(pushEmptyProtection, feed.cache[key], later[i])
  {
    hide EmitAll, EmitStep, Overtakes, HostsOf, ServiceInfo.Key;
    if i: nat :| i < |later| && Overtakes(pushEmptyProtection, feed.cache[key], later[i]) {
      OvertakenAt(pushEmptyProtection, feed, key, later, i);
    } else {
      forall n | 0 <= n <= |later|
        ensures Lookup(EmitAll(pushEmptyProtection, feed, later[..n]).cache, key) == Some(feed.cache[key])
      {
        NotOvertaken(pushEmptyProtection, feed, key, later[..n]);
      }
    }
  }

  /** The first snapshot that overtakes the entry replaces it. */
  lemma {:induction false} OvertakenAt(
      pushEmptyProtection: bool, feed: Feed, key: string, later: seq<ServiceInfo>, i: nat)
    requires key in feed.cache && feed.cache[key].Key() == key && feed.cache[key].hosts.Some?
    requires i < |later| && Overtakes(pushEmptyProtection, feed.cache[key], later[i])
    ensures !HostsHeld(pushEmptyProtection, feed, key, later)
  {
    if j: nat :| j < i && Overtakes(pushEmptyProtection, feed.cache[key], later[j]) {
      OvertakenAt(pushEmptyProtection, feed, key, later, j);
    } else {
      NotOvertaken(pushEmptyProtection, feed, key, later[..i]);
      hide EmitStep, HostsOf, ServiceInfo.Key;
      assert later[..i + 1][..i] == later[..i];
      EmitOntoCached(pushEmptyProtection, EmitAll(pushEmptyProtection, feed, later[..i]), key, later[i]);
    }
  }

  /** Whether the newer of two snapshots of a key wins when the older one arrives after it, for any
      cache. It does exactly when nothing is cached, or the hosts it brings are not cached yet, or the older
      one is older than the cached timestamp too, or brings the same hosts. Against an entry newer
      than both, it wins only by having its hosts cached already. */
  lemma NewestWinsIff(pushEmptyProtection: bool, feed: Feed, newest: ServiceInfo, older: ServiceInfo)
    requires Passes(pushEmptyProtection, newest) && Passes(pushEmptyProtection, older)
    requires older.Key() == newest.Key() && older.lastRefTime < newest.lastRefTime
    ensures var after := EmitAll(pushEmptyProtection, feed, [newest, older]).cache;
            var key := newest.Key();
            && key in after
            && (HostsOf(after[key]) == HostsOf(newest) <==>
                match Lookup(feed.cache, key)
                case None => true
                case Some(c) =>
                  if newest.lastRefTime < c.lastRefTime then
                    HostsOf(c) == HostsOf(newest)
                  else
                    || c.hosts.None?
                    || HostsOf(c) != HostsOf(newest)
                    || older.lastRefTime < c.lastRefTime
                    || HostsOf(older) == HostsOf(newest))
  {
    hide ServiceInfo.Key, ServiceInfo.Validate, HostsOf, Passes;
    PassesIff(pushEmptyProtection, newest);
    PassesIff(pushEmptyProtection, older);
    assert [newest, older][..1] == [newest];
    assert [newest][..0] == [];
    assert EmitAll(pushEmptyProtection, feed, [newest]) == EmitStep(pushEmptyProtection, feed, newest);
  }

  /** A snapshot whose hosts are already cached leaves the cached timestamp where it was. So a run
      is not "latest wins": the newest snapshot can be followed by an older one that is stored. */
  lemma OlderSnapshotCanWin(newest: ServiceInfo, older: ServiceInfo, first: ServiceInfo)
    requires first.hosts.Some? && newest.hosts.Some? && older.hosts.Some?
    requires first.Key() == newest.Key() == older.Key()
    requires HostsOf(first) == HostsOf(newest) != HostsOf(older)
    requires first.lastRefTime <= older.lastRefTime < newest.lastRefTime
    ensures EmitAll(false, Feed(map[], []), [first, newest, older]).cache[first.Key()] == older
  {
    var feed := Feed(map[], []);
    assert [first, newest, older][..2] == [first, newest];
    assert [first, newest][..1] == [first];
    assert [first][..0] == [];
    assert EmitAll(false, feed, [first]) == Feed(map[first.Key() := first], [first]);
    assert EmitAll(false, feed, [first, newest]) == EmitAll(false, feed, [first]);
  }

  // ---------------------------------------------------------------- the object

  class ServiceInfoEmitter {
    var cache: ServiceCache
    var channel: seq<ServiceInfo>  // events not yet received
    const pushEmptyProtection: bool
    ghost var enqueued: seq<ServiceInfo>  // every event ever sent

    ghost function View(): Feed
      reads this
    {
      Feed(cache, enqueued)
    }

    constructor (cache: ServiceCache, pushEmptyProtection: bool)
      ensures View() == Feed(cache, []) && channel == []
      ensures this.pushEmptyProtection == pushEmptyProtection
    {
      this.cache, channel, enqueued := cache, [], [];
      this.pushEmptyProtection := pushEmptyProtection;
    }

    method Emit(info: ServiceInfo)
      modifies this
      ensures View() == EmitStep(pushEmptyProtection, old(View()), info)
      ensures channel == old(channel) + enqueued[|old(enqueued)|..]
    {
      var notify := ProcessServiceInfo(info);
      if notify {
        channel := channel + [info];
        enqueued := enqueued + [info];
      }
    }

    method ProcessServiceInfo(info: ServiceInfo) returns (changed: bool)
      modifies this`cache
      ensures changed <==> Accepts(pushEmptyProtection, old(cache), info)
      ensures cache == if changed then old(cache)[info.Key() := info] else old(cache)
    {
      if IsEmptyOrErrorPush(pushEmptyProtection, info) {
        return false;
      }
      var key := info.Key();
      changed := Changed(Lookup(cache, key), info);
      if changed {
        cache := cache[key := info];
      }
    }
  }

  /** The staleness check and the diff against the cached snapshot. */
  method Changed(cached: Option<ServiceInfo>, info: ServiceInfo) returns (changed: bool)
    ensures changed <==> IsChangedServiceInfo(cached, info)
    ensures cached.None? ==> changed
    ensures cached.Some? ==>
              (changed <==>
                 && cached.value.lastRefTime <= info.lastRefTime
                 && (cached.value.hosts.Some? || info.hosts.Some?)
                 && (cached.value.hosts.Some? && info.hosts.Some? ==>
                       Hosts(cached.value.hosts.value) != Hosts(info.hosts.value)))
  {
    if cached.None? {
      return true;
    }
    if IsOutdatedData(cached.value, info) {
      return false;
    }
    if info.hosts.None? && cached.value.hosts.None? {
      return false;
    }
    if info.hosts.None? || cached.value.hosts.None? {
      return true;
    }
    var diff := Calculate(cached.value.hosts.value, info.hosts.value);
    return diff.changed;
  }
}
