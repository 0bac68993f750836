/** Cached configurations on values: filling an entry, telling its listeners, and reconciling the
    cache with a server through the channel of changed keys. */
module ConfigModel {
  import opened Wrappers
  import opened Keys

  const GROUP_KEY_SPLIT := "+_+"

  /** Listeners are told apart by identity only. */
  type Listener = nat

  datatype ConfigId = ConfigId(dataId: string, group: string, namespace: string)

  function GroupKey(id: ConfigId): string {
    id.dataId + GROUP_KEY_SPLIT + id.group + GROUP_KEY_SPLIT + id.namespace
  }

  /** Configurations that agree on two of the three parts share their key exactly when they agree on
      the third; without the separator's character in the first two, exactly when they are the same. */
  lemma GroupKeyIff(a: ConfigId, b: ConfigId)
    ensures a.group == b.group && a.namespace == b.namespace ==> (GroupKey(a) == GroupKey(b) <==> a.dataId == b.dataId)
    ensures a.dataId == b.dataId && a.namespace == b.namespace ==> (GroupKey(a) == GroupKey(b) <==> a.group == b.group)
    ensures a.dataId == b.dataId && a.group == b.group ==> (GroupKey(a) == GroupKey(b) <==> a.namespace == b.namespace)
    ensures '+' !in a.dataId + a.group && '+' !in b.dataId + b.group ==>
              (GroupKey(a) == GroupKey(b) <==> a == b)
  {
    GroupKeyParts(a);
    GroupKeyParts(b);
    hide GroupKey;
    Cancel("", a.dataId, b.dataId, "+_+" + a.group + "+_+" + a.namespace);
    Cancel(a.dataId + "+_+", a.group, b.group, "+_+" + a.namespace);
    Cancel(a.dataId + "+_+" + a.group + "+_+", a.namespace, b.namespace, "");
    if '+' !in a.dataId + a.group && '+' !in b.dataId + b.group {
      var aGroup := a.group + ['+'] + ("_+" + a.namespace);
      var bGroup := b.group + ['+'] + ("_+" + b.namespace);
      FirstPart(a.dataId, b.dataId, '+', "_+" + aGroup, "_+" + bGroup);
      CancelLeft("_+", aGroup, bGroup);
      FirstPart(a.group, b.group, '+', "_+" + a.namespace, "_+" + b.namespace);
      CancelLeft("_+", a.namespace, b.namespace);
    }
  }

  /** With the separator inside a part, two configurations can share a key. */
  lemma GroupKeysCanCollide(namespace: string)
    ensures GroupKey(ConfigId("a+_+b", "c", namespace)) == GroupKey(ConfigId("a", "b+_+c", namespace))
  {
    assert "a+_+b" + "+_+" + "c" == "a" + "+_+" + "b+_+c";
  }

  lemma GroupKeyParts(id: ConfigId)
    ensures GroupKey(id) == "" + id.dataId + ("+_+" + id.group + "+_+" + id.namespace)
    ensures GroupKey(id) == id.dataId + "+_+" + id.group + ("+_+" + id.namespace)
    ensures GroupKey(id) == id.dataId + "+_+" + id.group + "+_+" + id.namespace + ""
    ensures GroupKey(id) == id.dataId + ['+'] + ("_+" + (id.group + ['+'] + ("_+" + id.namespace)))
  {
  }

  datatype ListenerWrapper = ListenerWrapper(lastMd5: string, listener: Listener)

  datatype Entry = Entry(
    id: ConfigId,
    contentType: string,
    content: string,
    md5: string,
    encryptedDataKey: string,
    lastModified: int,
    initializing: bool,
    listeners: seq<ListenerWrapper>
  )

  function NewEntry(id: ConfigId): Entry {
    Entry(id, "text", "", "", "", 0, true, [])
  }

  /** The server's successful answer to a query. The client insists on three of the fields. */
  datatype QueryResponse = QueryResponse(
    contentType: Option<string>,
    content: Option<string>,
    md5: Option<string>,
    encryptedDataKey: Option<string>,
    lastModified: int
  ) {
    predicate Complete() {
      contentType.Some? && content.Some? && md5.Some?
    }
  }

  datatype Fill = Filled(entry: Entry, notify: bool) | Panicked(entry: Entry)

  /** Overwrites an entry field by field. A missing field panics, with the fields before it
      already written. The first fill of an entry does not notify. */
  function FillData(e: Entry, r: QueryResponse): Fill {
    if r.contentType.None? then Panicked(e)
    else
      var typed := e.(contentType := r.contentType.value);
      if r.content.None? then Panicked(typed)
      else
        var filled := typed.(content := r.content.value);
        if r.md5.None? then Panicked(filled)
        else
          Filled(filled.(md5 := r.md5.value,
                         encryptedDataKey := if r.encryptedDataKey.Some? then r.encryptedDataKey.value else "",
                         lastModified := r.lastModified,
                         initializing := false),
                 !e.initializing)
  }

  // ---------------------------------------------------------------- listeners of one entry

  /** What the filters may rewrite. */
  datatype ConfigResp = ConfigResp(id: ConfigId, content: string, encryptedDataKey: string)

  datatype ConfigResponse = ConfigResponse(id: ConfigId, content: string, contentType: string, md5: string)

  /** The response listeners get: the filters see everything but the content type and the md5. */
  function FilteredResponse(e: Entry, filter: ConfigResp -> ConfigResp): ConfigResponse {
    var out := filter(ConfigResp(e.id, e.content, e.encryptedDataKey));
    ConfigResponse(out.id, out.content, e.contentType, e.md5)
  }

  /** The news of a complete reply: its own content type and md5, and its content and key as the
      filters leave them. */
  function NewsOf(id: ConfigId, r: QueryResponse, filter: ConfigResp -> ConfigResp): ConfigResponse
    requires r.Complete()
  {
    var key := if r.encryptedDataKey.Some? then r.encryptedDataKey.value else "";
    var out := filter(ConfigResp(id, r.content.value, key));
    ConfigResponse(out.id, out.content, r.contentType.value, r.md5.value)
  }

  /** What listeners get after a complete fill is the news of the reply. */
  lemma FilledNews(e: Entry, r: QueryResponse, filter: ConfigResp -> ConfigResp)
    requires r.Complete()
    ensures FilteredResponse(FillData(e, r).entry, filter) == NewsOf(e.id, r, filter)
  {
  }

  function IndexOf(listeners: seq<ListenerWrapper>, listener: Listener): (index: Option<nat>)
    ensures index.Some? ==> index.value < |listeners| && listeners[index.value].listener == listener
    ensures index.None? ==> forall i :: 0 <= i < |listeners| ==> listeners[i].listener != listener
  {
    if listeners == [] then None
    else if listeners[0].listener == listener then Some(0)
    else
      var rest := IndexOf(listeners[1..], listener);
      if rest.Some? then Some(rest.value + 1) else None
  }

  function AddListener(listeners: seq<ListenerWrapper>, listener: Listener): seq<ListenerWrapper> {
    if IndexOf(listeners, listener).Some? then listeners else listeners + [ListenerWrapper("", listener)]
  }

  /** Takes one element out and moves the last one into its place. */
  function SwapRemove(listeners: seq<ListenerWrapper>, index: nat): seq<ListenerWrapper>
    requires index < |listeners|
  {
    var last := |listeners| - 1;
    if index == last then listeners[..last] else listeners[..last][index := listeners[last]]
  }

  function RemoveListener(listeners: seq<ListenerWrapper>, listener: Listener): seq<ListenerWrapper> {
    var index := IndexOf(listeners, listener);
    if index.Some? then SwapRemove(listeners, index.value) else listeners
  }

  /** The wrappers after a dispatch of `md5`. */
  function Updated(listeners: seq<ListenerWrapper>, md5: string): (updated: seq<ListenerWrapper>)
    ensures |updated| == |listeners|
  {
    seq(|listeners|, i requires 0 <= i < |listeners| => ListenerWrapper(md5, listeners[i].listener))
  }

  /** The listeners a dispatch of `md5` tells, in order. */
  function ToTell(listeners: seq<ListenerWrapper>, md5: string): seq<Listener> {
    if listeners == [] then []
    else
      var last := listeners[|listeners| - 1];
      ToTell(listeners[..|listeners| - 1], md5) + if last.lastMd5 == md5 then [] else [last.listener]
  }

  /** One entry with its notify loop and its history. `pending` is a response on its way through
      the filters; `told` is what each current registration was told, oldest first. */
  datatype Watched = Watched(
    entry: Entry,
    pending: Option<ConfigResponse>,
    told: map<Listener, seq<ConfigResponse>>
  )

  datatype Event =
    | FillAndSnapshot(response: QueryResponse, filter: ConfigResp -> ConfigResp)
    | Dispatch
    | Add(listener: Listener)
    | Remove(listener: Listener)

  /** The one notify loop fills only when its last dispatch is done. */
  function Apply(w: Watched, e: Event): Watched {
    match e
    case FillAndSnapshot(response, filter) =>
      if w.pending.Some? then w
      else
        var fill := FillData(w.entry, response);
        w.(entry := fill.entry,
           pending := if fill.Filled? && fill.notify then Some(FilteredResponse(fill.entry, filter)) else None)
    case Dispatch =>
      if w.pending.None? then w
      else
        var response := w.pending.value;
        Watched(
          w.entry.(listeners := Updated(w.entry.listeners, w.entry.md5)),
          None,
          map l | l in w.told :: w.told[l] + if l in ToTell(w.entry.listeners, w.entry.md5) then [response] else [])
    case Add(l) =>
      var listeners := AddListener(w.entry.listeners, l);
      w.(entry := w.entry.(listeners := listeners),
         told := if listeners == w.entry.listeners then w.told else w.told[l := []])
    case Remove(l) =>
      w.(entry := w.entry.(listeners := RemoveListener(w.entry.listeners, l)), told := w.told - {l})
  }

  function ApplyAll(w: Watched, events: seq<Event>): Watched {
    if events == [] then w else Apply(ApplyAll(w, events[..|events| - 1]), events[|events| - 1])
  }

  ghost predicate NoListenerTwice(listeners: seq<ListenerWrapper>) {
    forall i, j :: 0 <= i < j < |listeners| ==> listeners[i].listener != listeners[j].listener
  }

  /** The md5 a registration was told last; it starts from the empty one. */
  function LastTold(told: seq<ConfigResponse>): string {
    if told == [] then "" else told[|told| - 1].md5
  }

  ghost predicate NeverTheSameTwice(told: seq<ConfigResponse>) {
    && (told != [] ==> told[0].md5 != "")
    && (forall i :: 0 < i < |told| ==> told[i].md5 != told[i - 1].md5)
  }

  /** The listeners of a list. */
  ghost function Names(listeners: seq<ListenerWrapper>): set<Listener> {
    set i | 0 <= i < |listeners| :: listeners[i].listener
  }

  /** The md5 on record for each listener is the one it was told last. */
  ghost predicate Recorded(listeners: seq<ListenerWrapper>, told: map<Listener, seq<ConfigResponse>>) {
    forall i :: 0 <= i < |listeners| ==>
      listeners[i].listener in told && listeners[i].lastMd5 == LastTold(told[listeners[i].listener])
  }

  ghost predicate NoneToldTwice(told: map<Listener, seq<ConfigResponse>>) {
    forall l :: l in told ==> NeverTheSameTwice(told[l])
  }

  ghost predicate Inv(w: Watched) {
    && NoListenerTwice(w.entry.listeners)
    && (w.pending.Some? ==> w.pending.value.md5 == w.entry.md5)
    && w.told.Keys == Names(w.entry.listeners)
    && Recorded(w.entry.listeners, w.told)
    && NoneToldTwice(w.told)
  }

  lemma {:induction false} ToTellExactly(listeners: seq<ListenerWrapper>, md5: string, l: Listener)
    ensures l in ToTell(listeners, md5) <==>
            exists i :: 0 <= i < |listeners| && listeners[i].listener == l && listeners[i].lastMd5 != md5
  {
    if listeners != [] {
      var front, last := listeners[..|listeners| - 1], listeners[|listeners| - 1];
      ToTellExactly(front, md5, l);
      assert forall i :: 0 <= i < |front| ==> front[i] == listeners[i];
      if last.listener == l && last.lastMd5 != md5 {
        assert listeners[|listeners| - 1].listener == l;
      } else {
        assert l in ToTell(listeners, md5) <==> l in ToTell(front, md5);
      }
    }
  }

  lemma OneMoreTold(told: seq<ConfigResponse>, response: ConfigResponse)
    requires NeverTheSameTwice(told) && LastTold(told) != response.md5
    ensures NeverTheSameTwice(told + [response]) && LastTold(told + [response]) == response.md5
  {
  }

  /** What one dispatch does for one registration. */
  lemma DispatchTells(w: Watched, l: Listener)
    requires Inv(w) && w.pending.Some? && l in w.told
    ensures var after := Apply(w, Dispatch);
            && l in after.told
            && after.told[l] ==
               w.told[l] + (if LastTold(w.told[l]) == w.entry.md5 then [] else [w.pending.value])
            && LastTold(after.told[l]) == w.entry.md5
            && NeverTheSameTwice(after.told[l])
  {
    hide Updated, ToTell, LastTold, NeverTheSameTwice;
    ToTellExactly(w.entry.listeners, w.entry.md5, l);
    assert l in Names(w.entry.listeners);
    assert NeverTheSameTwice(w.told[l]);
    if LastTold(w.told[l]) != w.entry.md5 {
      OneMoreTold(w.told[l], w.pending.value);
    } else {
      assert w.told[l] + [] == w.told[l];
    }
  }

  lemma UpdatedNames(listeners: seq<ListenerWrapper>, md5: string)
    ensures Names(Updated(listeners, md5)) == Names(listeners)
    ensures NoListenerTwice(listeners) ==> NoListenerTwice(Updated(listeners, md5))
  {
    assert forall i :: 0 <= i < |listeners| ==> Updated(listeners, md5)[i].listener == listeners[i].listener;
  }

  lemma UpdatedRecord(listeners: seq<ListenerWrapper>, md5: string, told: map<Listener, seq<ConfigResponse>>)
    requires told.Keys == Names(listeners)
    requires forall l :: l in told ==> LastTold(told[l]) == md5
    ensures Recorded(Updated(listeners, md5), told)
  {
    hide LastTold;
    assert forall i :: 0 <= i < |listeners| ==> listeners[i].listener in Names(listeners);
  }

  lemma DispatchKeeps(w: Watched)
    requires Inv(w)
    ensures Inv(Apply(w, Dispatch))
  {
    if w.pending.Some? {
      hide Updated, ToTell, LastTold, NeverTheSameTwice, NoListenerTwice, Names, Recorded;
      var after := Apply(w, Dispatch);
      assert after.told.Keys == w.told.Keys;
      UpdatedNames(w.entry.listeners, w.entry.md5);
      forall l | l in w.told
        ensures LastTold(after.told[l]) == w.entry.md5 && NeverTheSameTwice(after.told[l])
      {
        DispatchTells(w, l);
      }
      UpdatedRecord(w.entry.listeners, w.entry.md5, after.told);
    }
  }

  lemma Appended(listeners: seq<ListenerWrapper>, l: Listener)
    requires NoListenerTwice(listeners) && l !in Names(listeners)
    ensures NoListenerTwice(listeners + [ListenerWrapper("", l)])
    ensures Names(listeners + [ListenerWrapper("", l)]) == Names(listeners) + {l}
  {
    var more := listeners + [ListenerWrapper("", l)];
    assert more[|listeners|].listener == l;
    assert forall i :: 0 <= i < |listeners| ==> more[i] == listeners[i] && listeners[i].listener in Names(listeners);
  }

  lemma AppendedRecord(listeners: seq<ListenerWrapper>, told: map<Listener, seq<ConfigResponse>>, l: Listener)
    requires Recorded(listeners, told) && NoneToldTwice(told) && l !in Names(listeners)
    ensures Recorded(listeners + [ListenerWrapper("", l)], told[l := []])
    ensures NoneToldTwice(told[l := []])
  {
    hide NeverTheSameTwice, LastTold;
    NothingTold();
    assert forall i :: 0 <= i < |listeners| ==> listeners[i].listener in Names(listeners);
  }

  lemma AddKeeps(w: Watched, l: Listener)
    requires Inv(w)
    ensures Inv(Apply(w, Add(l)))
  {
    hide NoListenerTwice, Names, Recorded, NoneToldTwice;
    var listeners := w.entry.listeners;
    IndexedIffNamed(listeners, l);
    if IndexOf(listeners, l).None? {
      assert |listeners + [ListenerWrapper("", l)]| == |listeners| + 1;
      Appended(listeners, l);
      AppendedRecord(listeners, w.told, l);
    }
  }

  lemma IndexedIffNamed(listeners: seq<ListenerWrapper>, l: Listener)
    ensures IndexOf(listeners, l).Some? <==> l in Names(listeners)
  {
  }

  lemma NothingTold()
    ensures LastTold([]) == "" && NeverTheSameTwice([])
  {
  }

  lemma SwapRemoved(listeners: seq<ListenerWrapper>, index: nat)
    requires index < |listeners| && NoListenerTwice(listeners)
    ensures var left := SwapRemove(listeners, index);
            && NoListenerTwice(left)
            && Names(left) == Names(listeners) - {listeners[index].listener}
            && (forall i :: 0 <= i < |left| ==> left[i] in listeners)
  {
    var last := |listeners| - 1;
    var left := SwapRemove(listeners, index);
    forall i | 0 <= i < |listeners| && i != index
      ensures listeners[i].listener in Names(left)
    {
      assert left[if i == last then index else i] == listeners[i];
    }
  }

  lemma Added(listeners: seq<ListenerWrapper>, listener: Listener)
    ensures var more := AddListener(listeners, listener);
            && (if listener in Names(listeners) then more == listeners
                else more == listeners + [ListenerWrapper("", listener)])
            && Names(more) == Names(listeners) + {listener}
            && (NoListenerTwice(listeners) ==> NoListenerTwice(more))
  {
    IndexedIffNamed(listeners, listener);
    hide IndexOf, NoListenerTwice, Names;
    if listener !in Names(listeners) {
      AppendedName(listeners, listener);
      if NoListenerTwice(listeners) {
        Appended(listeners, listener);
      }
    }
  }

  lemma AppendedName(listeners: seq<ListenerWrapper>, listener: Listener)
    ensures Names(listeners + [ListenerWrapper("", listener)]) == Names(listeners) + {listener}
  {
    var more := listeners + [ListenerWrapper("", listener)];
    assert more[|listeners|].listener == listener;
    assert forall i :: 0 <= i < |listeners| ==> more[i] == listeners[i];
  }

  lemma Removed(listeners: seq<ListenerWrapper>, listener: Listener)
    ensures var left := RemoveListener(listeners, listener);
            var index := IndexOf(listeners, listener);
            && (if index.None? then left == listeners
                else multiset(left) == multiset(listeners) - multiset{listeners[index.value]})
            && (NoListenerTwice(listeners) ==>
                  NoListenerTwice(left) && Names(left) == Names(listeners) - {listener})
  {
    IndexedIffNamed(listeners, listener);
    hide NoListenerTwice, Names, SwapRemove;
    var index := IndexOf(listeners, listener);
    if index.Some? {
      SwapRemovedContents(listeners, index.value);
      if NoListenerTwice(listeners) {
        SwapRemoved(listeners, index.value);
      }
    }
  }

  lemma SwapRemovedContents(listeners: seq<ListenerWrapper>, index: nat)
    requires index < |listeners|
    ensures multiset(SwapRemove(listeners, index)) == multiset(listeners) - multiset{listeners[index]}
  {
    var last := |listeners| - 1;
    assert listeners == listeners[..last] + [listeners[last]];
  }

  lemma RemoveKeeps(w: Watched, l: Listener)
    requires Inv(w)
    ensures Inv(Apply(w, Remove(l)))
  {
    hide NeverTheSameTwice, LastTold;
    var listeners := w.entry.listeners;
    var index := IndexOf(listeners, l);
    if index.Some? {
      SwapRemoved(listeners, index.value);
      var left := RemoveListener(listeners, l);
      forall i | 0 <= i < |left|
        ensures left[i].listener in w.told - {l}
        ensures left[i].lastMd5 == LastTold((w.told - {l})[left[i].listener])
      {
        assert left[i] in listeners;
        assert left[i].listener in Names(left);
      }
    } else {
      assert l !in Names(listeners);
      assert w.told - {l} == w.told;
    }
  }

  /** Over any run of fills, dispatches and listener changes: no listener is listed twice, the md5
      recorded for a registration is the one of the last response it was told, no registration is
      told the same md5 twice in a row, and a response under way carries the entry's md5. */
  lemma {:induction false} EveryRunKeeps(w: Watched, events: seq<Event>)
    requires Inv(w)
    ensures Inv(ApplyAll(w, events))
  {
    if events != [] {
      EveryRunKeeps(w, events[..|events| - 1]);
      var before := ApplyAll(w, events[..|events| - 1]);
      match events[|events| - 1]
      case FillAndSnapshot(response, filter) =>
        FillKeeps(before, response, filter);
      case Dispatch =>
        DispatchKeeps(before);
      case Add(l) =>
        AddKeeps(before, l);
      case Remove(l) =>
        RemoveKeeps(before, l);
    }
  }

  /** An entry as it is created, and one read back from disk, has no listeners, no response under
      way and no history. */
  function Unwatched(e: Entry): Watched
    requires e.listeners == []
  {
    Watched(e, None, map[])
  }

  /** So every run of a new entry, and of any loaded one, keeps the invariant from its beginning. */
  lemma EveryRunFromTheStart(id: ConfigId, loaded: Entry, events: seq<Event>)
    requires loaded.listeners == []
    ensures Inv(ApplyAll(Unwatched(NewEntry(id)), events))
    ensures Inv(ApplyAll(Unwatched(loaded), events))
  {
    EveryRunKeeps(Unwatched(NewEntry(id)), events);
    EveryRunKeeps(Unwatched(loaded), events);
  }

  lemma FillKeeps(w: Watched, response: QueryResponse, filter: ConfigResp -> ConfigResp)
    requires Inv(w)
    ensures Inv(Apply(w, FillAndSnapshot(response, filter)))
  {
  }

  /** What a fill does, field by field. While a response is on its way the loop fills nothing; an
      incomplete reply leaves what decides on notifications as it was. */
  lemma FillIs(w: Watched, r: QueryResponse, filter: ConfigResp -> ConfigResp)
    ensures var after := Apply(w, FillAndSnapshot(r, filter));
            && after.told == w.told && after.entry.id == w.entry.id && after.entry.listeners == w.entry.listeners
            && (w.pending.Some? ==> after == w)
            && (w.pending.None? && r.Complete() ==>
                  && after.entry.content == r.content.value && after.entry.contentType == r.contentType.value
                  && after.entry.md5 == r.md5.value && after.entry.lastModified == r.lastModified
                  && after.entry.encryptedDataKey == (if r.encryptedDataKey.Some? then r.encryptedDataKey.value else "")
                  && !after.entry.initializing
                  && after.pending == if w.entry.initializing then None else Some(NewsOf(w.entry.id, r, filter)))
            && (w.pending.None? && !r.Complete() ==>
                  && after.entry.md5 == w.entry.md5 && after.entry.initializing == w.entry.initializing
                  && after.entry.encryptedDataKey == w.entry.encryptedDataKey
                  && after.entry.lastModified == w.entry.lastModified
                  && after.pending.None?
                  && after.entry.contentType ==
                     (if r.contentType.Some? then r.contentType.value else w.entry.contentType)
                  && after.entry.content ==
                     (if r.contentType.Some? && r.content.Some? then r.content.value else w.entry.content))
  {
  }

  /** After a dispatch every registration has the entry's md5 on record and was told it last; the
      ones told by this dispatch are exactly those whose record differed. */
  lemma DispatchTellsWhoDiffers(w: Watched, events: seq<Event>, l: Listener)
    requires Inv(w)
    requires ApplyAll(w, events).pending.Some?
    requires l in ApplyAll(w, events).told
    ensures var before := ApplyAll(w, events);
            var after := Apply(before, Dispatch);
            && (forall i :: 0 <= i < |after.entry.listeners| ==> after.entry.listeners[i].lastMd5 == after.entry.md5)
            && l in after.told
            && LastTold(after.told[l]) == after.entry.md5
            && after.told[l] ==
               before.told[l] + if LastTold(before.told[l]) == before.entry.md5 then [] else [before.pending.value]
  {
    hide LastTold, Inv;
    EveryRunKeeps(w, events);
    DispatchTells(ApplyAll(w, events), l);
  }

  /** Any later fill reaches everyone: once its dispatch is done, each registration was told the new
      md5 last, and was told it now exactly if it had not been before. */
  lemma LaterFillReachesEveryone(w: Watched, response: QueryResponse, filter: ConfigResp -> ConfigResp, l: Listener)
    requires Inv(w) && w.pending.None? && !w.entry.initializing
    requires response.Complete() && l in w.told
    ensures var filled := Apply(w, FillAndSnapshot(response, filter));
            var after := Apply(filled, Dispatch);
            var news := NewsOf(w.entry.id, response, filter);
            && filled.pending == Some(news)
            && l in after.told
            && LastTold(after.told[l]) == response.md5.value
            && after.told[l] == w.told[l] + if LastTold(w.told[l]) == response.md5.value then [] else [news]
  {
    hide LastTold;
    FillKeeps(w, response, filter);
    var filled := Apply(w, FillAndSnapshot(response, filter));
    FilledNews(w.entry, response, filter);
    assert filled.pending == Some(NewsOf(w.entry.id, response, filter));
    DispatchTells(filled, l);
  }

  /** Exactly when a fill and its dispatch leave a registration told the entry's md5: the entry was
      filled before, or that md5 is the one the registration was told last anyway. */
  lemma FillReachesIff(w: Watched, response: QueryResponse, filter: ConfigResp -> ConfigResp, l: Listener)
    requires Inv(w) && w.pending.None?
    requires response.Complete() && l in w.told
    ensures var after := Apply(Apply(w, FillAndSnapshot(response, filter)), Dispatch);
            && after.entry.md5 == response.md5.value
            && l in after.told
            && (LastTold(after.told[l]) == response.md5.value <==>
                !w.entry.initializing || LastTold(w.told[l]) == response.md5.value)
            && (w.entry.initializing ==> after.told == w.told)
  {
    if !w.entry.initializing {
      LaterFillReachesEveryone(w, response, filter, l);
    }
  }

  /** The first fill of an entry reaches no listener: one added while the server could not be asked
      still has an empty record when the entry already holds the content. */
  lemma FirstFillIsSilent(id: ConfigId, l: Listener, response: QueryResponse, filter: ConfigResp -> ConfigResp)
    requires response.Complete()
    ensures var w := ApplyAll(Watched(NewEntry(id), None, map[]),
                              [Add(l), FillAndSnapshot(response, filter), Dispatch]);
            && w.entry.md5 == response.md5.value
            && w.entry.listeners == [ListenerWrapper("", l)]
            && w.told == map[l := []]
  {
    var start := Watched(NewEntry(id), None, map[]);
    var events := [Add(l), FillAndSnapshot(response, filter), Dispatch];
    assert events[..2] == [Add(l), FillAndSnapshot(response, filter)];
    assert events[..2][..1] == [Add(l)];
    assert [Add(l)][..0] == [];
    assert ApplyAll(start, [Add(l)]) == Apply(start, Add(l));
    assert ApplyAll(start, events[..2]) == Apply(Apply(start, Add(l)), FillAndSnapshot(response, filter));
  }
}
