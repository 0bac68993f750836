/** The connection and the redo map together. Two watchers read the connection ids the connection
    sends; every report of theirs starts a task of its own, which activates or freezes the whole
    map when it gets to run. A run is any interleaving of the connection's iterations, the looks of
    the watchers, the landings of their reports, and the calls and sends that use the map. */
module Reconnection {
  import opened Wrappers
  import opened ConnectionModel
  import opened RedoModel

  /** `seen` is what the watchers saw, which may lack values sent; `landed` is the reports whose
      tasks have run, in the order in which they did. */
  datatype Client = Client(run: Run, seen: seq<Option<ConnectionId>>, landed: seq<nat>, redo: Redo)

  datatype Happening =
    | Advance(connEvent: ConnectionModel.Event)
    | Look                              // the watchers read the value sent last
    | Land(report: nat)                 // the task of a report gets to run
    | Work(redoEvent: RedoModel.Event)  // a call or a send

  function Begin(maxRetries: Option<nat>): Client {
    Client(Start(maxRetries), [], [], NOTHING)
  }

  function ConnectionEvent(link: Link): RedoModel.Event {
    if link.Opened? then Reconnect else Disconnect
  }

  predicate CanLand(c: Client, report: nat) {
    report < |Reports(c.seen)| && report !in c.landed
  }

  predicate IsWork(e: RedoModel.Event) {
    !e.Reconnect? && !e.Disconnect?
  }

  function Happen(c: Client, h: Happening): Client {
    match h
    case Advance(e) => c.(run := PlayEvent(c.run, e))
    case Look =>
      var sent := Watch(c.run.trace);
      if sent == [] then c else c.(seen := c.seen + [Last(sent)])
    case Land(report) =>
      if CanLand(c, report) then
        c.(landed := c.landed + [report],
           redo := RedoModel.Apply(c.redo, ConnectionEvent(Reports(c.seen)[report])))
      else c
    case Work(e) => if IsWork(e) then c.(redo := RedoModel.Apply(c.redo, e)) else c
  }

  function HappenAll(c: Client, hs: seq<Happening>): Client {
    if hs == [] then c else Happen(HappenAll(c, Front(hs)), Last(hs))
  }

  /** The calls and sends since a report landed last. */
  function Since(c: Client, hs: seq<Happening>): seq<RedoModel.Event> {
    if hs == [] then []
    else
      var before := Since(c, Front(hs));
      match Last(hs)
      case Land(report) => if CanLand(HappenAll(c, Front(hs)), report) then [] else before
      case Work(e) => if IsWork(e) then before + [e] else before
      case _ => before
  }

  /** The call or send at `j` came after every landing. */
  ghost predicate SinceLanding(c: Client, hs: seq<Happening>, j: int, e: RedoModel.Event) {
    && 0 <= j < |hs| && hs[j] == Work(e) && IsWork(e)
    && forall k :: j < k < |hs| ==> !(hs[k].Land? && CanLand(HappenAll(c, hs[..k]), hs[k].report))
  }

  lemma {:induction false} SinceIff(c: Client, hs: seq<Happening>, e: RedoModel.Event)
    ensures e in Since(c, hs) <==> exists j :: SinceLanding(c, hs, j, e)
  {
    if hs != [] {
      var n := |hs| - 1;
      var front, last := Front(hs), Last(hs);
      SinceIff(c, front, e);
      hide HappenAll, CanLand, IsWork;
      assert forall k :: 0 <= k < n ==> hs[k] == front[k] && hs[..k] == front[..k];
      assert hs[..n] == front;
      var lands := last.Land? && CanLand(HappenAll(c, front), last.report);
      forall j ensures SinceLanding(c, hs, j, e) <==>
                       if j == n then last == Work(e) && IsWork(e) else SinceLanding(c, front, j, e) && !lands
      {
      }
      if last == Work(e) && IsWork(e) {
        assert SinceLanding(c, hs, n, e);
      }
    }
  }

  // ---------------------------------------------------------------- what the last landing leaves

  /** No report has landed yet, or the last one to land was of a connection. */
  predicate Up(c: Client) {
    c.landed == [] ||
    (Last(c.landed) < |Reports(c.seen)| && Reports(c.seen)[Last(c.landed)].Opened?)
  }

  /** Each task of the map is active, or was sent or accepted by its own call. */
  ghost predicate ActiveOrSettled(redo: Redo, since: seq<RedoModel.Event>) {
    forall t :: t in redo.entries.Values ==>
      t < |redo.tasks| && (redo.tasks[t].active || SendOk(t) in since || RegisterOk(t) in since)
  }

  /** Each active task of the map was made or had a failed send. */
  ghost predicate FrozenUnlessRevived(redo: Redo, since: seq<RedoModel.Event>) {
    forall t :: t in redo.entries.Values ==>
      t < |redo.tasks| &&
      (redo.tasks[t].active ==> SendFailed(t) in since || RegisterBegin(redo.tasks[t].request) in since)
  }

  ghost predicate Kept(c: Client, since: seq<RedoModel.Event>) {
    && ConnectionModel.Inv(c.run)
    && WellKeyed(c.redo)
    && (forall r :: r in c.landed ==> r < |Reports(c.seen)|)
    && (forall i, j :: 0 <= i < j < |c.landed| ==> c.landed[i] != c.landed[j])
    && (if Up(c) then ActiveOrSettled(c.redo, since) else FrozenUnlessRevived(c.redo, since))
  }

  lemma EntryAfterWork(redo: Redo, e: RedoModel.Event, t: nat)
    requires IsWork(e) && t in RedoModel.Apply(redo, e).entries.Values
    ensures t in redo.entries.Values || (e.RegisterBegin? && t == |redo.tasks|)
  {
    hide Request.Key;
    var after := RedoModel.Apply(redo, e);
    var k :| k in after.entries && after.entries[k] == t;
    assert (k in redo.entries && redo.entries[k] == t) || e.RegisterBegin?;
  }

  lemma ActiveAfterWork(redo: Redo, since: seq<RedoModel.Event>, e: RedoModel.Event)
    requires ActiveOrSettled(redo, since) && IsWork(e)
    ensures ActiveOrSettled(RedoModel.Apply(redo, e), since + [e])
  {
    hide Request.Key;
    var after, more := RedoModel.Apply(redo, e), since + [e];
    assert forall x :: x in more <==> x in since || x == e;
    forall t | t in after.entries.Values
      ensures t < |after.tasks| && (after.tasks[t].active || SendOk(t) in more || RegisterOk(t) in more)
    {
      EntryAfterWork(redo, e, t);
    }
  }

  lemma FrozenAfterWork(redo: Redo, since: seq<RedoModel.Event>, e: RedoModel.Event)
    requires FrozenUnlessRevived(redo, since) && IsWork(e)
    ensures FrozenUnlessRevived(RedoModel.Apply(redo, e), since + [e])
  {
    hide Request.Key;
    var after, more := RedoModel.Apply(redo, e), since + [e];
    assert forall x :: x in more <==> x in since || x == e;
    forall t | t in after.entries.Values
      ensures t < |after.tasks| &&
              (after.tasks[t].active ==> SendFailed(t) in more || RegisterBegin(after.tasks[t].request) in more)
    {
      EntryAfterWork(redo, e, t);
    }
  }

  lemma AfterLanding(redo: Redo, link: Link)
    requires WellKeyed(redo)
    ensures var after := RedoModel.Apply(redo, ConnectionEvent(link));
            && after.entries == redo.entries
            && (link.Opened? ==> ActiveOrSettled(after, []))
            && (link.Closed? ==> FrozenUnlessRevived(after, []))
  {
    hide Request.Key;
  }

  lemma LookGrows(c: Client)
    ensures Reports(c.seen) <= Reports(Happen(c, Look).seen)
  {
    var sent := Watch(c.run.trace);
    if sent != [] {
      ReportsAppend(c.seen, Last(sent));
    }
  }

  lemma HappenKeeps(c: Client, since: seq<RedoModel.Event>, h: Happening)
    requires Kept(c, since)
    ensures Kept(Happen(c, h),
                 if h.Land? && CanLand(c, h.report) then []
                 else if h.Work? && IsWork(h.redoEvent) then since + [h.redoEvent]
                 else since)
  {
    hide ConnectionModel.Inv, WellKeyed, ActiveOrSettled, FrozenUnlessRevived, RedoModel.Apply, Reports;
    assert c.landed != [] ==> Last(c.landed) in c.landed;
    match h
    case Advance(e) =>
      PlayEventKeeps(c.run, e);
    case Look =>
      LookGrows(c);
    case Land(report) =>
      if CanLand(c, report) {
        var link := Reports(c.seen)[report];
        ApplyKeepsWellKeyed(c.redo, ConnectionEvent(link));
        AfterLanding(c.redo, link);
      }
    case Work(e) =>
      if IsWork(e) {
        ApplyKeepsWellKeyed(c.redo, e);
        if Up(c) {
          ActiveAfterWork(c.redo, since, e);
        } else {
          FrozenAfterWork(c.redo, since, e);
        }
      }
  }

  lemma BeginKeeps(maxRetries: Option<nat>)
    ensures Kept(Begin(maxRetries), [])
  {
    StartKeeps(maxRetries);
  }

  /** Over every run, whatever the order in which reports land: after a connection report the map
      holds only tasks that are active or were since then sent or accepted; after a disconnection
      report the active ones are those made since then or whose send failed since then. No report
      lands twice. */
  lemma {:induction false} EveryRunKeeps(maxRetries: Option<nat>, hs: seq<Happening>)
    ensures Kept(HappenAll(Begin(maxRetries), hs), Since(Begin(maxRetries), hs))
  {
    if hs == [] {
      BeginKeeps(maxRetries);
    } else {
      hide Kept, Happen;
      EveryRunKeeps(maxRetries, Front(hs));
      HappenKeeps(HappenAll(Begin(maxRetries), Front(hs)), Since(Begin(maxRetries), Front(hs)), Last(hs));
    }
  }

  /** Neither the task nor a registration of its request has been the matter of a call or a send. */
  ghost predicate Untouched(redo: Redo, task: nat, since: seq<RedoModel.Event>)
    requires task < |redo.tasks|
  {
    && SendOk(task) !in since && SendFailed(task) !in since && RegisterOk(task) !in since
    && RegisterBegin(redo.tasks[task].request) !in since
  }

  /** The last landing decides: every registration not touched since then is waiting to be replayed
      exactly when it reported a connection, whatever the connection is like by now. */
  lemma LastLandingDecides(maxRetries: Option<nat>, hs: seq<Happening>, key: string)
    requires key in HappenAll(Begin(maxRetries), hs).redo.entries
    ensures var c := HappenAll(Begin(maxRetries), hs);
            var task := c.redo.entries[key];
            && task < |c.redo.tasks|
            && (Untouched(c.redo, task, Since(Begin(maxRetries), hs)) ==> (IsActive(c.redo, key) <==> Up(c)))
  {
    EveryRunKeeps(maxRetries, hs);
    var c := HappenAll(Begin(maxRetries), hs);
    hide HappenAll, Since, Up;
    assert c.redo.entries[key] in c.redo.entries.Values;
  }

  // ---------------------------------------------------------------- reports that land in order

  ghost predicate InOrder(landed: seq<nat>) {
    forall i, j :: 0 <= i < j < |landed| ==> landed[i] < landed[j]
  }

  lemma InOrderReaches(landed: seq<nat>, n: nat)
    requires landed != [] && InOrder(landed) && |landed| == n && forall i :: 0 <= i < n ==> landed[i] < n
    ensures Last(landed) == n - 1
  {
    AtLeastPlace(landed, n - 1);
  }

  lemma {:induction false} AtLeastPlace(landed: seq<nat>, i: nat)
    requires i < |landed| && InOrder(landed)
    ensures i <= landed[i]
  {
    if i > 0 {
      AtLeastPlace(landed, i - 1);
    }
  }

  /** While the client is connected, the watchers have seen that, and all reports have landed in
      order, every registration in the map is waiting to be replayed unless it was sent or accepted
      since the last landing. Watchers that miss values make no difference. */
  lemma InOrderReplaysEverything(maxRetries: Option<nat>, hs: seq<Happening>, key: string)
    requires var c := HappenAll(Begin(maxRetries), hs);
             && c.run.conn.state.Connected?
             && c.seen != [] && Last(c.seen) == c.run.conn.connectionId
             && InOrder(c.landed) && |c.landed| == |Reports(c.seen)|
             && key in c.redo.entries
    ensures var c := HappenAll(Begin(maxRetries), hs);
            var since := Since(Begin(maxRetries), hs);
            var task := c.redo.entries[key];
            IsActive(c.redo, key) || SendOk(task) in since || RegisterOk(task) in since
  {
    EveryRunKeeps(maxRetries, hs);
    var c := HappenAll(Begin(maxRetries), hs);
    hide HappenAll, Since, Reports;
    ReportsAlternate(c.seen);
    assert forall i :: 0 <= i < |c.landed| ==> c.landed[i] in c.landed;
    InOrderReaches(c.landed, |c.landed|);
    assert c.redo.entries[key] in c.redo.entries.Values;
  }

  // ---------------------------------------------------------------- reports that land out of order

  lemma HappenOneMore(c: Client, hs: seq<Happening>, h: Happening)
    ensures HappenAll(c, hs + [h]) == Happen(HappenAll(c, hs), h)
  {
    hide Happen;
    assert Front(hs + [h]) == hs;
  }

  /** Nothing but registrations begins: no call is answered and nothing is sent. */
  ghost predicate OnlyRegistered(hs: seq<Happening>) {
    forall h :: h in hs && h.Work? ==> h.redoEvent.RegisterBegin?
  }

  lemma Iterated(maxRetries: Option<nat>, hs: seq<Happening>, t: Turn) returns (more: seq<Happening>)
    requires OnlyRegistered(hs)
    ensures OnlyRegistered(more)
    ensures var c := HappenAll(Begin(maxRetries), hs);
            HappenAll(Begin(maxRetries), more) == c.(run := Step(c.run, t))
  {
    more := hs + [Advance(Iterate(t))];
    HappenOneMore(Begin(maxRetries), hs, Advance(Iterate(t)));
  }

  lemma Looked(maxRetries: Option<nat>, hs: seq<Happening>) returns (more: seq<Happening>)
    requires OnlyRegistered(hs) && Watch(HappenAll(Begin(maxRetries), hs).run.trace) != []
    ensures OnlyRegistered(more)
    ensures var c := HappenAll(Begin(maxRetries), hs);
            HappenAll(Begin(maxRetries), more) == c.(seen := c.seen + [Last(Watch(c.run.trace))])
  {
    more := hs + [Look];
    HappenOneMore(Begin(maxRetries), hs, Look);
  }

  /** The client dials and connects, and the watchers see both. */
  lemma Connects(maxRetries: Option<nat>, hs: seq<Happening>, id: ConnectionId) returns (more: seq<Happening>)
    requires OnlyRegistered(hs)
    requires var conn := HappenAll(Begin(maxRetries), hs).run.conn;
             conn.state.Idle? && HasAttempts(conn)
    ensures OnlyRegistered(more)
    ensures var c, c' := HappenAll(Begin(maxRetries), hs), HappenAll(Begin(maxRetries), more);
            && c' == c.(run := c'.run, seen := c.seen + [None, Some(id)])
            && c'.run.conn.state.Connected? && c'.run.conn.isInitialized && c'.run.conn.connectionId == Some(id)
  {
    hide HappenAll, OnlyRegistered, Watch, Step, Last, MaxAttempts;
    var c := HappenAll(Begin(maxRetries), hs);
    Dialling(c.run);
    Serving(Step(c.run, DIAL), id);
    Associates(c.seen, [None], [Some(id)]);
    assert [None] + [Some(id)] == [None, Some(id)];
    more := Iterated(maxRetries, hs, DIAL);
    more := Looked(maxRetries, more);
    more := Iterated(maxRetries, more, SUCCEED);
    more := Iterated(maxRetries, more, SucceedAs(id));
    more := Looked(maxRetries, more);
  }

  /** The connection is given up and the back-off ends. */
  lemma Loses(maxRetries: Option<nat>, hs: seq<Happening>) returns (more: seq<Happening>)
    requires OnlyRegistered(hs)
    requires var conn := HappenAll(Begin(maxRetries), hs).run.conn; conn.state.Connected? && conn.isInitialized
    ensures OnlyRegistered(more)
    ensures var c, c' := HappenAll(Begin(maxRetries), hs), HappenAll(Begin(maxRetries), more);
            && c' == c.(run := c'.run)
            && c'.run.conn.state.Idle? && c'.run.conn.isInitialized
  {
    Losing(HappenAll(Begin(maxRetries), hs).run);
    hide HappenAll, OnlyRegistered, Step;
    more := Iterated(maxRetries, hs, FAIL);
    more := Iterated(maxRetries, more, SUCCEED);
  }

  lemma Landed(maxRetries: Option<nat>, hs: seq<Happening>, report: nat) returns (more: seq<Happening>)
    requires OnlyRegistered(hs) && CanLand(HappenAll(Begin(maxRetries), hs), report)
    ensures OnlyRegistered(more)
    ensures var c := HappenAll(Begin(maxRetries), hs);
            HappenAll(Begin(maxRetries), more) ==
            c.(landed := c.landed + [report],
               redo := RedoModel.Apply(c.redo, ConnectionEvent(Reports(c.seen)[report])))
  {
    more := hs + [Land(report)];
    HappenOneMore(Begin(maxRetries), hs, Land(report));
  }

  /** When the end of a connection lands after the next connection, a registration that was never
      sent is not waiting to be sent either, while the client is connected and no report is
      outstanding: no tick will send it. */
  lemma LateDisconnectionForgets(maxRetries: Option<nat>, request: Request, a: ConnectionId, b: ConnectionId)
    returns (hs: seq<Happening>)
    requires maxRetries != Some(0)
    ensures OnlyRegistered(hs)
    ensures var c := HappenAll(Begin(maxRetries), hs);
            && c.run.conn.state.Connected? && c.seen != [] && Last(c.seen) == c.run.conn.connectionId
            && Reports(c.seen) == [Opened(a), Closed(a), Opened(b)]
            && c.landed == [0, 2, 1]
            && c.redo.entries.Keys == {request.Key()}
            && !IsActive(c.redo, request.Key())
            && (forall walk :: Walks(walk, c.redo) ==> ActiveOf(c.redo, walk) == [])
  {
    hs := [Work(RegisterBegin(request))];
    Registered(maxRetries, request);
    hide HappenAll, OnlyRegistered, Request.Key, RedoModel.Apply, Reports, ActiveOf, Walks;
    hs := Connects(maxRetries, hs, a);
    hs := Loses(maxRetries, hs);
    hs := Connects(maxRetries, hs, b);
    var seen := HappenAll(Begin(maxRetries), hs).seen;
    assert seen == [None, Some(a), None, Some(b)];
    ReportsOfLives(a, b);
    hs := Landed(maxRetries, hs, 0);
    hs := Landed(maxRetries, hs, 2);
    hs := Landed(maxRetries, hs, 1);
    var c := HappenAll(Begin(maxRetries), hs);
    FrozenByLast(request);
    forall walk | Walks(walk, c.redo) ensures ActiveOf(c.redo, walk) == [] {
      NoneActive(c.redo, walk, request.Key());
    }
  }

  lemma Registered(maxRetries: Option<nat>, request: Request)
    ensures OnlyRegistered([Work(RegisterBegin(request))])
    ensures HappenAll(Begin(maxRetries), [Work(RegisterBegin(request))]) ==
            Begin(maxRetries).(redo := Redo(map[request.Key() := 0], [Task(request, true)]))
  {
    hide Request.Key;
    HappenOneMore(Begin(maxRetries), [], Work(RegisterBegin(request)));
    assert [] + [Work(RegisterBegin(request))] == [Work(RegisterBegin(request))];
  }

  lemma FrozenByLast(request: Request)
    ensures var registered := Redo(map[request.Key() := 0], [Task(request, true)]);
            RedoModel.Apply(RedoModel.Apply(RedoModel.Apply(registered, Reconnect), Reconnect), Disconnect) ==
            Redo(map[request.Key() := 0], [Task(request, false)])
  {
    hide Request.Key;
    var entries := map[request.Key() := 0];
    assert request.Key() in entries && entries[request.Key()] == 0;
    assert 0 in entries.Values;
  }

  lemma {:induction false} NoneActive(s: Redo, walk: seq<string>, key: string)
    requires s.entries.Keys == {key} && !IsActive(s, key)
    ensures ActiveOf(s, walk) == []
  {
    if walk != [] {
      NoneActive(s, walk[..|walk| - 1], key);
    }
  }
}
