/** The polling loop beside the emitter: what a skipped round says about the listeners. */
module Polling {
  import opened Wrappers
  import opened ServiceInfos
  import opened Emitter
  import opened Observer
  import opened Updater

  /** The timestamp the loop finds in the cache. */
  function CachedTime(cache: ServiceCache, key: string): Option<int> {
    if key in cache then Some(cache[key].lastRefTime) else None
  }

  /** Two skips without a successful query between them are separated by an event for the key,
      which its listeners are told of: the loop only rests while pushes do its work. */
  lemma SkipsAreAnnounced(
      turns: seq<Turn>, i: nat, j: nat, key: string,
      pushEmptyProtection: bool, feed: Feed, pushed: seq<ServiceInfo>)
    requires i < j < |turns|
    requires DidAt(turns, i) == Skipped && DidAt(turns, j) == Skipped
    requires forall k :: i < k < j ==> DidAt(turns, k) != Refreshed
    requires turns[i].cached == CachedTime(feed.cache, key)
    requires turns[j].cached == CachedTime(EmitAll(pushEmptyProtection, feed, pushed).cache, key)
    ensures var after := EmitAll(pushEmptyProtection, feed, pushed);
            feed.events <= after.events && OfKey(key, after.events[|feed.events|..]) != []
  {
    hide DidAt, EmitAll, OfKey, Replay;
    SkipsNeedNewerSnapshots(turns, i, j);
    EventLogIsCache(pushEmptyProtection, feed, pushed);
    var after := EmitAll(pushEmptyProtection, feed, pushed);
    ReplayIsLastOfKey(feed.cache, key, after.events[|feed.events|..]);
  }
}
