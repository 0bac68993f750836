/** The redo protocol on values: which registrations are replayed, and when they stop being so.

    Tasks are numbered as they are created, so that a task stays the same task after another has
    taken its place in the map: a call that completes late freezes its own task only. A run is any
    interleaving of the steps of register and deregister calls, connection events and sends. */
module RedoModel {
  import opened Wrappers
  import opened Keys

  /** `kind` is the request type's name; `body` is all the rest, the instance included. */
  datatype Request = Request(
    namespace: Option<string>,
    groupName: Option<string>,
    serviceName: Option<string>,
    kind: string,
    body: string
  ) {
    function Key(): string {
      OrEmpty(namespace) + "@@" + OrEmpty(groupName) + "@@" + OrEmpty(serviceName) + "@@" + kind
    }
  }

  function OrEmpty(s: Option<string>): string {
    if s.Some? then s.value else ""
  }

  /** Two requests are about the same registration: same namespace, group and service, where a missing
      one counts as empty, and the same kind of request. */
  predicate SameRegistration(a: Request, b: Request) {
    && SamePart(a.namespace, b.namespace)
    && SamePart(a.groupName, b.groupName)
    && SamePart(a.serviceName, b.serviceName)
    && a.kind == b.kind
  }

  predicate SamePart(a: Option<string>, b: Option<string>) {
    a == b || (a == None && b == Some("")) || (a == Some("") && b == None)
  }

  lemma SamePartIff(a: Option<string>, b: Option<string>)
    ensures SamePart(a, b) <==> OrEmpty(a) == OrEmpty(b)
  {
  }

  /** No part before the kind holds the character that the separator is made of. */
  predicate Plain(r: Request) {
    && (r.namespace.Some? ==> '@' !in r.namespace.value)
    && (r.groupName.Some? ==> '@' !in r.groupName.value)
    && (r.serviceName.Some? ==> '@' !in r.serviceName.value)
  }

  /** Requests that agree on three of the four parts share their key exactly when they agree on the
      fourth, whatever the parts hold. */
  lemma KeyTellsFourth(a: Request, b: Request)
    ensures SamePart(a.groupName, b.groupName) && SamePart(a.serviceName, b.serviceName) && a.kind == b.kind ==>
              (a.Key() == b.Key() <==> SamePart(a.namespace, b.namespace))
    ensures SamePart(a.namespace, b.namespace) && SamePart(a.serviceName, b.serviceName) && a.kind == b.kind ==>
              (a.Key() == b.Key() <==> SamePart(a.groupName, b.groupName))
    ensures SamePart(a.namespace, b.namespace) && SamePart(a.groupName, b.groupName) && a.kind == b.kind ==>
              (a.Key() == b.Key() <==> SamePart(a.serviceName, b.serviceName))
    ensures SamePart(a.namespace, b.namespace) && SamePart(a.groupName, b.groupName)
            && SamePart(a.serviceName, b.serviceName) ==>
              (a.Key() == b.Key() <==> a.kind == b.kind)
  {
    KeyParts(a);
    KeyParts(b);
    SamePartIff(a.namespace, b.namespace);
    SamePartIff(a.groupName, b.groupName);
    SamePartIff(a.serviceName, b.serviceName);
    hide Request.Key, OrEmpty, SamePart;
    var n, g, s := OrEmpty(a.namespace), OrEmpty(a.groupName), OrEmpty(a.serviceName);
    Cancel("", n, OrEmpty(b.namespace), "@@" + g + "@@" + s + "@@" + a.kind);
    Cancel(n + "@@", g, OrEmpty(b.groupName), "@@" + s + "@@" + a.kind);
    Cancel(n + "@@" + g + "@@", s, OrEmpty(b.serviceName), "@@" + a.kind);
    Cancel(n + "@@" + g + "@@" + s + "@@", a.kind, b.kind, "");
  }

  /** The key, split before and after each part. */
  lemma KeyParts(r: Request)
    ensures var n, g, s := OrEmpty(r.namespace), OrEmpty(r.groupName), OrEmpty(r.serviceName);
            && r.Key() == "" + n + ("@@" + g + "@@" + s + "@@" + r.kind)
            && r.Key() == n + "@@" + g + ("@@" + s + "@@" + r.kind)
            && r.Key() == n + "@@" + g + "@@" + s + ("@@" + r.kind)
            && r.Key() == n + "@@" + g + "@@" + s + "@@" + r.kind + ""
  {
  }

  /** Requests without the separator's character in their names share their key exactly when they are about the
      same registration; the body does not matter. */
  lemma KeyIff(a: Request, b: Request)
    requires Plain(a) && Plain(b)
    ensures a.Key() == b.Key() <==> SameRegistration(a, b)
  {
    KeyNested(a);
    KeyNested(b);
    SamePartIff(a.namespace, b.namespace);
    SamePartIff(a.groupName, b.groupName);
    SamePartIff(a.serviceName, b.serviceName);
    hide Request.Key, OrEmpty, SamePart;
    var aService := OrEmpty(a.serviceName) + ['@'] + ("@" + a.kind);
    var bService := OrEmpty(b.serviceName) + ['@'] + ("@" + b.kind);
    var aGroup := OrEmpty(a.groupName) + ['@'] + ("@" + aService);
    var bGroup := OrEmpty(b.groupName) + ['@'] + ("@" + bService);
    FirstPart(OrEmpty(a.namespace), OrEmpty(b.namespace), '@', "@" + aGroup, "@" + bGroup);
    CancelLeft("@", aGroup, bGroup);
    FirstPart(OrEmpty(a.groupName), OrEmpty(b.groupName), '@', "@" + aService, "@" + bService);
    CancelLeft("@", aService, bService);
    FirstPart(OrEmpty(a.serviceName), OrEmpty(b.serviceName), '@', "@" + a.kind, "@" + b.kind);
    CancelLeft("@", a.kind, b.kind);
  }

  lemma KeyNested(r: Request)
    ensures r.Key() ==
            OrEmpty(r.namespace) + ['@'] +
            ("@" + (OrEmpty(r.groupName) + ['@'] + ("@" + (OrEmpty(r.serviceName) + ['@'] + ("@" + r.kind)))))
    ensures Plain(r) ==>
              '@' !in OrEmpty(r.namespace) && '@' !in OrEmpty(r.groupName) && '@' !in OrEmpty(r.serviceName)
  {
  }

  /** With the separator inside a name, two services can share a key. */
  lemma KeysCanCollide(namespace: Option<string>, kind: string, body: string)
    ensures var a := Request(namespace, Some("a@@b"), Some("c"), kind, body);
            var b := Request(namespace, Some("a"), Some("b@@c"), kind, body);
            a.Key() == b.Key() && !SameRegistration(a, b)
  {
    var a := Request(namespace, Some("a@@b"), Some("c"), kind, body);
    var b := Request(namespace, Some("a"), Some("b@@c"), kind, body);
    assert "a@@b" + "@@" + "c" == "a" + "@@" + "b@@c";
    assert "a@@b" != "a";
  }

  datatype Task = Task(request: Request, active: bool)

  datatype Redo = Redo(entries: map<string, nat>, tasks: seq<Task>)

  datatype Event =
    | RegisterBegin(request: Request)      // a new active task takes its key
    | RegisterOk(task: nat)                // the call that made the task succeeded
    | RegisterFailed(task: nat)
    | DeregisterOk(request: Request)
    | DeregisterFailed(request: Request)
    | Reconnect
    | Disconnect
    | SendOk(task: nat)                    // a redo run of the task was sent
    | SendFailed(task: nat)

  function SetActive(tasks: seq<Task>, which: set<nat>, active: bool): (r: seq<Task>)
    ensures |r| == |tasks|
  {
    seq(|tasks|, i requires 0 <= i < |tasks| => if i in which then tasks[i].(active := active) else tasks[i])
  }

  function Apply(s: Redo, e: Event): Redo {
    match e
    case RegisterBegin(request) =>
      Redo(s.entries[request.Key() := |s.tasks|], s.tasks + [Task(request, true)])
    case RegisterOk(task) => s.(tasks := SetActive(s.tasks, {task}, false))
    case RegisterFailed(_) => s
    case DeregisterOk(request) => s.(entries := s.entries - {request.Key()})
    case DeregisterFailed(_) => s
    case Reconnect => s.(tasks := SetActive(s.tasks, s.entries.Values, true))
    case Disconnect => s.(tasks := SetActive(s.tasks, s.entries.Values, false))
    case SendOk(task) => s.(tasks := SetActive(s.tasks, {task}, false))
    case SendFailed(task) => s.(tasks := SetActive(s.tasks, {task}, true))
  }

  function ApplyAll(s: Redo, events: seq<Event>): Redo {
    if events == [] then s else Apply(ApplyAll(s, events[..|events| - 1]), events[|events| - 1])
  }

  const NOTHING := Redo(map[], [])

  // ---------------------------------------------------------------- the replay set

  /** Every entry names a task that belongs under its key. */
  ghost predicate WellKeyed(s: Redo) {
    forall k :: k in s.entries ==> s.entries[k] < |s.tasks| && s.tasks[s.entries[k]].request.Key() == k
  }

  predicate Settles(e: Event, key: string) {
    (e.RegisterBegin? || e.DeregisterOk?) && e.request.Key() == key
  }

  /** The event registers under a key, and no later event registers or deregisters there. */
  ghost predicate Standing(events: seq<Event>, i: int, key: string) {
    && 0 <= i < |events|
    && events[i].RegisterBegin? && events[i].request.Key() == key
    && forall j :: i < j < |events| ==> !Settles(events[j], key)
  }

  lemma ApplyKeepsWellKeyed(s: Redo, e: Event)
    requires WellKeyed(s)
    ensures WellKeyed(Apply(s, e))
    ensures |s.tasks| <= |Apply(s, e).tasks|
    ensures forall t :: 0 <= t < |s.tasks| ==> Apply(s, e).tasks[t].request == s.tasks[t].request
  {
    hide Request.Key;
  }

  lemma StandingOneMore(front: seq<Event>, e: Event, key: string)
    ensures forall i :: Standing(front + [e], i, key) <==>
                        if Settles(e, key) then i == |front| && e.RegisterBegin? else Standing(front, i, key)
  {
    hide Request.Key;
    var events := front + [e];
    forall i
      ensures Standing(events, i, key) <==>
              if Settles(e, key) then i == |front| && e.RegisterBegin? else Standing(front, i, key)
    {
      assert forall j :: 0 <= j < |front| ==> events[j] == front[j];
      assert events[|front|] == e;
    }
  }

  lemma ApplyInMap(s: Redo, e: Event, key: string)
    ensures Lookup(Apply(s, e).entries, key) ==
            if !Settles(e, key) then Lookup(s.entries, key) else if e.RegisterBegin? then Some(|s.tasks|) else None
    ensures e.RegisterBegin? ==> Apply(s, e).tasks == s.tasks + [Task(e.request, true)]
  {
    hide Request.Key;
  }

  /** Over every interleaving: the map holds, for each key, exactly the latest register request
      that no successful deregister followed. */
  lemma {:induction false} ReplaySet(events: seq<Event>, key: string)
    ensures var s := ApplyAll(NOTHING, events);
            && WellKeyed(s)
            && (key in s.entries <==> exists i :: Standing(events, i, key))
            && (forall i :: Standing(events, i, key) ==>
                  key in s.entries && s.tasks[s.entries[key]].request == events[i].request)
  {
    hide Request.Key, Settles;
    if events != [] {
      var n := |events| - 1;
      var front := events[..n];
      ReplaySet(front, key);
      var before := ApplyAll(NOTHING, front);
      assert events == front + [events[n]];
      StandingOneMore(front, events[n], key);
      ApplyKeepsWellKeyed(before, events[n]);
      ApplyInMap(before, events[n], key);
      assert WellKeyed(before);
      hide Standing, Apply;
      assert Settles(events[n], key) && events[n].RegisterBegin? ==> Standing(events, n, key);
    }
  }

  /** The event registers the request's registration, and no later event registers or deregisters it. */
  ghost predicate StandingFor(events: seq<Event>, i: int, request: Request) {
    && 0 <= i < |events|
    && events[i].RegisterBegin? && SameRegistration(events[i].request, request)
    && forall j :: i < j < |events| && (events[j].RegisterBegin? || events[j].DeregisterOk?) ==>
         !SameRegistration(events[j].request, request)
  }

  ghost predicate AllPlain(events: seq<Event>) {
    forall e :: e in events && (e.RegisterBegin? || e.DeregisterOk?) ==> Plain(e.request)
  }

  /** The replay set by registrations: over every interleaving of requests without the separator's
      character in their names, a registration is in the map exactly when one of its registers still stands, and
      what the map holds for it is the latest one. */
  lemma ReplaySetOfRegistration(events: seq<Event>, request: Request)
    requires AllPlain(events) && Plain(request)
    ensures var s := ApplyAll(NOTHING, events);
            var key := request.Key();
            && WellKeyed(s)
            && (key in s.entries <==> exists i :: StandingFor(events, i, request))
            && (forall i :: StandingFor(events, i, request) ==>
                  key in s.entries && s.tasks[s.entries[key]].request == events[i].request)
  {
    hide Request.Key, SameRegistration, Plain, ApplyAll;
    ReplaySet(events, request.Key());
    forall e | e in events && (e.RegisterBegin? || e.DeregisterOk?)
      ensures e.request.Key() == request.Key() <==> SameRegistration(e.request, request)
    {
      KeyIff(e.request, request);
    }
    assert forall j :: 0 <= j < |events| ==> events[j] in events;
    forall i ensures StandingFor(events, i, request) <==> Standing(events, i, request.Key()) {
    }
  }

  // ---------------------------------------------------------------- no redo is dropped silently

  /** The ways a task stops being replayed: it was sent, its own call succeeded, or the
      connection went down while it was in the map. */
  ghost predicate Freezes(s: Redo, e: Event, task: nat) {
    e == SendOk(task) || e == RegisterOk(task) || (e == Disconnect && task in s.entries.Values)
  }

  lemma {:induction false} FrozenForAReason(s: Redo, events: seq<Event>, task: nat) returns (at: nat)
    requires task < |s.tasks| && s.tasks[task].active
    requires var after := ApplyAll(s, events); task < |after.tasks| && !after.tasks[task].active
    ensures at < |events| && Freezes(ApplyAll(s, events[..at]), events[at], task)
  {
    hide Request.Key;
    var n := |events| - 1;
    var front := events[..n];
    TasksStay(s, front, task);
    var before := ApplyAll(s, front);
    if before.tasks[task].active {
      return n;
    }
    at := FrozenForAReason(s, front, task);
    assert front[..at] == events[..at];
  }

  /** The ways a task comes to be replayed: it is made, a connection comes up while it is in the map,
      or a send of it fails. */
  ghost predicate Raises(s: Redo, e: Event, task: nat) {
    || (e.RegisterBegin? && task == |s.tasks|)
    || (e == Reconnect && task in s.entries.Values)
    || e == SendFailed(task)
  }

  /** The event at `at` raises the task's flag, and no later event freezes the task. */
  ghost predicate StaysRaised(events: seq<Event>, at: int, task: nat) {
    && 0 <= at < |events|
    && Raises(ApplyAll(NOTHING, events[..at]), events[at], task)
    && forall j :: at < j < |events| ==> !Freezes(ApplyAll(NOTHING, events[..j]), events[j], task)
  }

  lemma StaysRaisedOneMore(front: seq<Event>, e: Event, task: nat)
    ensures forall at :: StaysRaised(front + [e], at, task) <==>
              if at == |front| then Raises(ApplyAll(NOTHING, front), e, task)
              else StaysRaised(front, at, task) && !Freezes(ApplyAll(NOTHING, front), e, task)
  {
    hide ApplyAll, Raises, Freezes;
    var events := front + [e];
    assert events[..|front|] == front && events[|front|] == e;
    assert forall j :: 0 <= j < |front| ==> events[j] == front[j] && events[..j] == front[..j];
  }

  lemma FlagAfter(s: Redo, e: Event, task: nat)
    requires task < |Apply(s, e).tasks|
    ensures Apply(s, e).tasks[task].active <==>
            Raises(s, e, task) || (task < |s.tasks| && s.tasks[task].active && !Freezes(s, e, task))
    ensures task < |s.tasks| || Raises(s, e, task)
  {
    hide Request.Key;
  }

  /** Exactly when a task is waiting to be replayed, over every run: something raised its flag, and
      since then it was not sent, not accepted by its own call, and not in the map at a disconnection. */
  lemma {:induction false} ActiveIff(events: seq<Event>, task: nat)
    requires task < |ApplyAll(NOTHING, events).tasks|
    ensures ApplyAll(NOTHING, events).tasks[task].active <==> exists at :: StaysRaised(events, at, task)
  {
    if events != [] {
      var n := |events| - 1;
      var front, e := events[..n], events[n];
      var before := ApplyAll(NOTHING, front);
      assert events == front + [e];
      if task < |before.tasks| {
        ActiveIff(front, task);
      }
      FlagAfter(before, e, task);
      StaysRaisedOneMore(front, e, task);
      hide Apply, Raises, Freezes, StaysRaised;
      if Raises(before, e, task) {
        assert StaysRaised(events, n, task);
      } else if at :| StaysRaised(front, at, task) {
        assert StaysRaised(events, at, task) <==> at != n && !Freezes(before, e, task);
      }
    }
  }

  /** The run after any point is a run from the state at that point. */
  lemma {:induction false} ApplySplit(s: Redo, events: seq<Event>, at: nat)
    requires at <= |events|
    ensures ApplyAll(s, events) == ApplyAll(ApplyAll(s, events[..at]), events[at..])
  {
    hide Apply;
    if at < |events| {
      var n := |events| - 1;
      ApplySplit(s, events[..n], at);
      assert events[..n][..at] == events[..at];
      assert events[at..][..n - at] == events[..n][at..];
    } else {
      assert events[..at] == events;
    }
  }

  /** Nothing registered at a reconnection is forgotten after it: a task no longer waiting to be
      replayed was sent since, was accepted by its own call since, or lost the connection since. */
  lemma NothingForgottenSinceReconnect(events: seq<Event>, at: nat, key: string) returns (since: nat)
    requires at < |events| && events[at] == Reconnect
    requires key in ApplyAll(NOTHING, events[..at]).entries
    requires var task := ApplyAll(NOTHING, events[..at]).entries[key];
             var after := ApplyAll(NOTHING, events);
             task < |after.tasks| && !after.tasks[task].active
    ensures at < since < |events|
    ensures Freezes(ApplyAll(NOTHING, events[..since]), events[since], ApplyAll(NOTHING, events[..at]).entries[key])
  {
    hide ApplyAll, Apply, Freezes, Standing;
    ReplaySet(events[..at], key);
    var before := ApplyAll(NOTHING, events[..at]);
    var task := before.entries[key];
    assert events[..at + 1] == events[..at] + [Reconnect];
    ApplyOneMore(NOTHING, events[..at], Reconnect);
    ReconnectActivates(before, key);
    ApplySplit(NOTHING, events, at + 1);
    var k := FrozenForAReason(ApplyAll(NOTHING, events[..at + 1]), events[at + 1..], task);
    since := at + 1 + k;
    SplitTwice(events, at + 1, since);
  }

  lemma SplitTwice(events: seq<Event>, at: nat, since: nat)
    requires at <= since <= |events|
    ensures ApplyAll(NOTHING, events[..since]) == ApplyAll(ApplyAll(NOTHING, events[..at]), events[at..][..since - at])
  {
    hide ApplyAll;
    ApplySplit(NOTHING, events[..since], at);
    assert events[..since][..at] == events[..at];
    assert events[..since][at..] == events[at..][..since - at];
  }

  lemma ReconnectActivates(s: Redo, key: string)
    requires key in s.entries && s.entries[key] < |s.tasks|
    ensures var up := Apply(s, Reconnect);
            s.entries[key] < |up.tasks| && up.tasks[s.entries[key]].active
  {
    assert s.entries[key] in s.entries.Values;
  }

  lemma {:induction false} TasksStay(s: Redo, events: seq<Event>, task: nat)
    requires task < |s.tasks|
    ensures task < |ApplyAll(s, events).tasks|
    ensures ApplyAll(s, events).tasks[task].request == s.tasks[task].request
  {
    hide Request.Key;
    if events != [] {
      TasksStay(s, events[..|events| - 1], task);
    }
  }

  // ---------------------------------------------------------------- the map as its owner sees it

  /** The current request and flag under each key. */
  function View(s: Redo): map<string, Task> {
    map k | k in s.entries && s.entries[k] < |s.tasks| :: s.tasks[s.entries[k]]
  }

  function AllSet(view: map<string, Task>, active: bool): map<string, Task> {
    map k | k in view :: view[k].(active := active)
  }

  /** What one tick makes of the map: an active task is sent and stays active if that failed. */
  function Ticked(view: map<string, Task>, sent: string -> bool): map<string, Task> {
    map k | k in view :: view[k].(active := view[k].active && !sent(k))
  }

  lemma ConnectionEventsInView(s: Redo)
    requires WellKeyed(s)
    ensures View(Apply(s, Reconnect)) == AllSet(View(s), true)
    ensures View(Apply(s, Disconnect)) == AllSet(View(s), false)
  {
    hide Request.Key;
  }

  /** A completed register is its two steps; in the view it writes one key. */
  lemma RegisterInView(s: Redo, request: Request)
    requires WellKeyed(s)
    ensures var begun := Apply(s, RegisterBegin(request));
            && View(Apply(begun, RegisterOk(|s.tasks|))) == View(s)[request.Key() := Task(request, false)]
            && View(Apply(begun, RegisterFailed(|s.tasks|))) == View(s)[request.Key() := Task(request, true)]
  {
    hide Request.Key;
    var begun := Apply(s, RegisterBegin(request));
    assert View(begun) == View(s)[request.Key() := Task(request, true)];
    var done := Apply(begun, RegisterOk(|s.tasks|));
    assert forall t :: 0 <= t < |s.tasks| ==> done.tasks[t] == s.tasks[t];
  }

  lemma DeregisterInView(s: Redo, request: Request)
    requires WellKeyed(s)
    ensures View(Apply(s, DeregisterOk(request))) == View(s) - {request.Key()}
    ensures View(Apply(s, DeregisterFailed(request))) == View(s)
  {
    hide Request.Key;
  }

  /** What becomes of one task shows only under the key that holds it. */
  lemma OtherTasksSpared(s: Redo, e: Event, task: nat, key: string)
    requires key in s.entries && s.entries[key] < |s.tasks| && s.entries[key] != task
    requires e == RegisterOk(task) || e == SendOk(task) || e == SendFailed(task)
    ensures View(Apply(s, e))[key] == View(s)[key]
  {
  }

  lemma UnheldStaysUnheld(s: Redo, e: Event, task: nat)
    requires task < |s.tasks| && task !in s.entries.Values
    ensures task < |Apply(s, e).tasks| && task !in Apply(s, e).entries.Values
  {
    hide Request.Key;
  }

  /** Once another register has taken its key, a task is not in the map and never comes back. */
  lemma {:induction false} SupersededIsUnheld(events: seq<Event>, i: nat, j: nat)
    requires i < j < |events| && events[i].RegisterBegin? && events[j].RegisterBegin?
    requires events[i].request.Key() == events[j].request.Key()
    ensures var task, s := |ApplyAll(NOTHING, events[..i]).tasks|, ApplyAll(NOTHING, events);
            task < |s.tasks| && task !in s.entries.Values
  {
    hide Request.Key;
    var n := |events| - 1;
    var front := events[..n];
    var before := ApplyAll(NOTHING, front);
    var task := |ApplyAll(NOTHING, events[..i]).tasks|;
    assert front[..i] == events[..i];
    if j < n {
      SupersededIsUnheld(front, i, j);
      UnheldStaysUnheld(before, events[n], task);
    } else {
      var key := events[i].request.Key();
      HeldUnderItsKey(front, i);
      assert ApplyAll(NOTHING, events).entries == before.entries[key := |before.tasks|];
    }
  }

  /** The task a register makes is held under no key but its own. */
  lemma HeldUnderItsKey(events: seq<Event>, i: nat)
    requires i < |events| && events[i].RegisterBegin?
    ensures var task, s := |ApplyAll(NOTHING, events[..i]).tasks|, ApplyAll(NOTHING, events);
            && task < |s.tasks|
            && forall k :: k in s.entries && s.entries[k] == task ==> k == events[i].request.Key()
  {
    hide Request.Key;
    var before := ApplyAll(NOTHING, events[..i]);
    var task := |before.tasks|;
    assert events[..i + 1] == events[..i] + [events[i]];
    ApplyOneMore(NOTHING, events[..i], events[i]);
    ApplySplit(NOTHING, events, i + 1);
    TasksStay(ApplyAll(NOTHING, events[..i + 1]), events[i + 1..], task);
    ReplaySet(events, "");
  }

  /** Over every run: once a later register took the key of a task, the late end of the earlier call
      or of a send of its task changes nothing in the map, not even if the key was given up since. */
  lemma LateCompletionSparesNewerTask(events: seq<Event>, i: nat, j: nat, e: Event)
    requires i < j < |events| && events[i].RegisterBegin? && events[j].RegisterBegin?
    requires events[i].request.Key() == events[j].request.Key()
    requires var task := |ApplyAll(NOTHING, events[..i]).tasks|;
             e == RegisterOk(task) || e == SendOk(task) || e == SendFailed(task)
    ensures var s := ApplyAll(NOTHING, events);
            View(Apply(s, e)) == View(s)
  {
    SupersededIsUnheld(events, i, j);
    hide ApplyAll, Request.Key;
    var s, task := ApplyAll(NOTHING, events), |ApplyAll(NOTHING, events[..i]).tasks|;
    forall k | k in View(s) ensures View(Apply(s, e))[k] == View(s)[k] {
      assert s.entries[k] in s.entries.Values;
      OtherTasksSpared(s, e, task, k);
    }
  }

  /** The sends of one tick, for tasks in the given order. */
  function Sends(order: seq<nat>, sent: nat -> bool): seq<Event> {
    if order == [] then []
    else
      var last := order[|order| - 1];
      Sends(order[..|order| - 1], sent) + [if sent(last) then SendOk(last) else SendFailed(last)]
  }

  /** The order holds every active task of the map once. */
  ghost predicate Enumerates(order: seq<nat>, s: Redo) {
    && (forall i, j :: 0 <= i < j < |order| ==> order[i] != order[j])
    && (forall t: nat :: t in order <==> t in s.entries.Values && t < |s.tasks| && s.tasks[t].active)
  }

  lemma {:induction false} SendsInOrder(s: Redo, order: seq<nat>, sent: nat -> bool)
    ensures var after := ApplyAll(s, Sends(order, sent));
            && after.entries == s.entries
            && |after.tasks| == |s.tasks|
            && forall t :: 0 <= t < |s.tasks| ==>
                 after.tasks[t] == if t in order then s.tasks[t].(active := !sent(t)) else s.tasks[t]
  {
    if order != [] {
      var n := |order| - 1;
      var front := order[..n];
      SendsInOrder(s, front, sent);
      var e := if sent(order[n]) then SendOk(order[n]) else SendFailed(order[n]);
      ApplyOneMore(s, Sends(front, sent), e);
      assert Sends(order, sent) == Sends(front, sent) + [e];
      assert order == front + [order[n]];
      hide Sends, ApplyAll, Request.Key, Apply;
      SendSets(ApplyAll(s, Sends(front, sent)), order[n], sent(order[n]));
    }
  }

  lemma SendSets(s: Redo, task: nat, ok: bool)
    ensures Apply(s, if ok then SendOk(task) else SendFailed(task)) ==
            s.(tasks := SetActive(s.tasks, {task}, !ok))
  {
  }

  lemma ApplyOneMore(s: Redo, events: seq<Event>, e: Event)
    ensures ApplyAll(s, events + [e]) == Apply(ApplyAll(s, events), e)
  {
    hide Apply;
    assert (events + [e])[..|events|] == events;
  }

  /** A walk of the map meets each key once, in whatever order. */
  ghost predicate Walks(walk: seq<string>, s: Redo) {
    && (forall i, j :: 0 <= i < j < |walk| ==> walk[i] != walk[j])
    && (forall k :: k in walk <==> k in s.entries)
  }

  predicate IsActive(s: Redo, key: string) {
    key in s.entries && s.entries[key] < |s.tasks| && s.tasks[s.entries[key]].active
  }

  /** The active tasks in the order of the walk: the snapshot a tick takes. */
  function ActiveOf(s: Redo, walk: seq<string>): seq<nat> {
    if walk == [] then []
    else
      var key := walk[|walk| - 1];
      ActiveOf(s, walk[..|walk| - 1]) + if IsActive(s, key) then [s.entries[key]] else []
  }

  lemma {:induction false} ActiveOfWalk(s: Redo, walk: seq<string>, t: nat)
    ensures t in ActiveOf(s, walk) <==> exists k :: k in walk && IsActive(s, k) && s.entries[k] == t
  {
    if walk != [] {
      var front, key := walk[..|walk| - 1], walk[|walk| - 1];
      ActiveOfWalk(s, front, t);
      assert forall k :: k in walk <==> k in front || k == key by {
        assert walk == front + [key];
      }
      if IsActive(s, key) {
        assert ActiveOf(s, walk) == ActiveOf(s, front) + [s.entries[key]];
      } else {
        assert ActiveOf(s, walk) == ActiveOf(s, front);
      }
    }
  }

  lemma {:induction false} ActiveOnce(s: Redo, walk: seq<string>)
    requires WellKeyed(s)
    requires forall i, j :: 0 <= i < j < |walk| ==> walk[i] != walk[j]
    ensures var order := ActiveOf(s, walk);
            forall i, j :: 0 <= i < j < |order| ==> order[i] != order[j]
  {
    if walk != [] {
      var front, key := walk[..|walk| - 1], walk[|walk| - 1];
      ActiveOnce(s, front);
      assert key !in front;
      if IsActive(s, key) {
        hide Request.Key;
        ActiveOfWalk(s, front, s.entries[key]);
        forall k | k in front && IsActive(s, k) ensures s.entries[k] != s.entries[key] {
          EntriesDiffer(s, k, key);
        }
        NewOneAppended(ActiveOf(s, front), s.entries[key]);
      } else {
        assert ActiveOf(s, walk) == ActiveOf(s, front);
      }
    }
  }

  lemma NewOneAppended(order: seq<nat>, task: nat)
    requires forall i, j :: 0 <= i < j < |order| ==> order[i] != order[j]
    requires task !in order
    ensures var more := order + [task];
            forall i, j :: 0 <= i < j < |more| ==> more[i] != more[j]
  {
  }

  lemma EntriesDiffer(s: Redo, first: string, second: string)
    requires WellKeyed(s) && first in s.entries && second in s.entries && first != second
    ensures s.entries[first] != s.entries[second]
  {
  }

  lemma ActiveEnumerates(s: Redo, walk: seq<string>)
    requires WellKeyed(s) && Walks(walk, s)
    ensures Enumerates(ActiveOf(s, walk), s)
  {
    hide ActiveOf, Request.Key;
    ActiveOnce(s, walk);
    forall t: nat ensures t in ActiveOf(s, walk) <==> t in s.entries.Values && t < |s.tasks| && s.tasks[t].active {
      ActiveOfWalk(s, walk, t);
      if t in s.entries.Values && t < |s.tasks| && s.tasks[t].active {
        var k :| k in s.entries && s.entries[k] == t;
        assert IsActive(s, k);
      }
    }
  }

  /** How often a task is sent. */
  function SendsOf(task: nat, events: seq<Event>): nat {
    if events == [] then 0
    else
      var last := events[|events| - 1];
      SendsOf(task, events[..|events| - 1]) + if last == SendOk(task) || last == SendFailed(task) then 1 else 0
  }

  lemma {:induction false} SentOnce(order: seq<nat>, sent: nat -> bool, task: nat)
    requires forall i, j :: 0 <= i < j < |order| ==> order[i] != order[j]
    ensures SendsOf(task, Sends(order, sent)) == if task in order then 1 else 0
  {
    if order != [] {
      var n := |order| - 1;
      SentOnce(order[..n], sent, task);
      assert order == order[..n] + [order[n]];
      assert order[n] !in order[..n];
    }
  }

  /** A tick without connection events, in whatever order the map is walked: every active task of the
      map is sent exactly once and no other task at all, the key set stays, and the tasks left active
      are exactly the active ones whose send failed. */
  lemma TickInView(s: Redo, walk: seq<string>, sent: nat -> bool)
    requires WellKeyed(s) && Walks(walk, s)
    ensures var sends := Sends(ActiveOf(s, walk), sent);
            && (forall t: nat :: SendsOf(t, sends) ==
                  if t in s.entries.Values && t < |s.tasks| && s.tasks[t].active then 1 else 0)
            && |sends| == |ActiveOf(s, walk)|
            && View(ApplyAll(s, sends)) == Ticked(View(s), k => k in s.entries && sent(s.entries[k]))
  {
    hide Request.Key, SendsOf, ActiveOf, Walks;
    var order := ActiveOf(s, walk);
    ActiveEnumerates(s, walk);
    SendsInOrder(s, order, sent);
    SendsCount(order, sent);
    forall t: nat
      ensures SendsOf(t, Sends(order, sent)) ==
              if t in s.entries.Values && t < |s.tasks| && s.tasks[t].active then 1 else 0
    {
      SentOnce(order, sent, t);
    }
  }

  lemma {:induction false} SendsCount(order: seq<nat>, sent: nat -> bool)
    ensures |Sends(order, sent)| == |order|
  {
    if order != [] {
      SendsCount(order[..|order| - 1], sent);
    }
  }

  /** After a reconnection the next tick sends, for every key, the latest registration that no
      successful deregister followed, once. */
  lemma ReconnectReplaysEverything(events: seq<Event>, walk: seq<string>, sent: nat -> bool, key: string, i: int)
    requires Standing(events, i, key)
    requires Walks(walk, Apply(ApplyAll(NOTHING, events), Reconnect))
    ensures var s := Apply(ApplyAll(NOTHING, events), Reconnect);
            exists t: nat :: t < |s.tasks| && s.tasks[t].request == events[i].request
                        && SendsOf(t, Sends(ActiveOf(s, walk), sent)) == 1
  {
    hide Request.Key, Walks, ApplyAll;
    ReplaySet(events, key);
    var before := ApplyAll(NOTHING, events);
    var s := Apply(before, Reconnect);
    ApplyKeepsWellKeyed(before, Reconnect);
    var t := before.entries[key];
    assert t in before.entries.Values;
    TickInView(s, walk, sent);
    assert s.tasks[t].request == events[i].request;
  }
}
