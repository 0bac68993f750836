/** The connection object: its fields, updated in place by `poll_ready`, and the tasks around it. */
module Connection {
  import opened Wrappers
  import opened ConnectionModel

  datatype Poll = NotYet | Ready(result: Result<(), string>)

  class NacosGrpcConnection {
    var state: State
    var health: bool
    var connectionId: Option<ConnectionId>
    var retryCount: nat
    const maxRetries: Option<nat>
    var isInitialized: bool
    var watch: seq<Option<ConnectionId>>  // every value sent on the connection-id watch
    ghost var trace: seq<Label>

    ghost function Fields(): Conn
      reads this
    {
      Conn(state, health, connectionId, retryCount, maxRetries, isInitialized)
    }

    ghost function Snapshot(): Run
      reads this
    {
      Run(Fields(), trace)
    }

    /** The watch carries what the history says, and the history keeps what every run keeps. */
    ghost predicate Valid()
      reads this
    {
      watch == Watch(trace) && Inv(Snapshot())
    }

    constructor (maxRetries: Option<nat>)
      ensures Snapshot() == Start(maxRetries) && Valid()
    {
      hide Inv, Watch, Conserved, SleepTime;
      state, health, connectionId, retryCount := Idle, false, None, 0;
      this.maxRetries, isInitialized := maxRetries, false;
      watch, trace := [], [];
      new;
      assert Snapshot() == Start(maxRetries);
      hide *;
      StartKeeps(maxRetries);
    }

    /** Another task clears the health flag, or does not. */
    method Interfere(lower: bool)
      modifies this`health
      ensures health == (old(health) && !lower)
    {
      if lower {
        health := false;
      }
    }

    /** Gives up what the state holds and backs off for longer. */
    method GiveUp()
      modifies this`retryCount, this`state
      ensures retryCount == old(retryCount) + 1
      ensures state == Retry(SleepTime(retryCount))
    {
      retryCount := retryCount + 1;
      var seconds := SleepTime(retryCount);
      state := Retry(seconds);
    }

    /** Drives the connection until it has to wait or the caller may go ahead. */
    method PollReady(turns: nat -> Turn) returns (p: Poll, n: nat)
      requires Valid()
      requires FreshSleepsPend(Snapshot(), turns)
      modifies this
      ensures Valid()
      ensures n <= 6 && EndsAt(old(Snapshot()), turns, n)
      ensures Snapshot() == After(old(Snapshot()), turns, n)
      ensures p == if Last(trace).Waiting? then NotYet else Ready(Success(()))
      ensures old(isInitialized) ==> isInitialized
      ensures Last(trace).Served? ==> isInitialized && state.Connected?
      ensures Last(trace).Exhausted? ==> !isInitialized && !state.Connected?
    {
      hide Inv, Step, Act, Rank, FreshSleepsPend;
      ghost var start := Snapshot();
      n := 0;
      while true
        invariant Valid()
        invariant LoopingAt(start, turns, n)
        invariant Snapshot() == After(start, turns, n)
        invariant old(isInitialized) ==> isInitialized
        decreases 6 - n
      {
        LoopsAtMostFive(start, turns, n);
        var again;
        p, again := Iterate(turns(n));
        n := n + 1;
        assert Snapshot() == After(start, turns, n);
        if !again {
          return;
        }
      }
    }

    /** One iteration of the loop of `poll_ready`; `again` is its `continue`. */
    method Iterate(t: Turn) returns (p: Poll, again: bool)
      requires Valid()
      modifies this
      ensures Valid()
      ensures Snapshot() == Step(old(Snapshot()), t)
      ensures again <==> !Returns(Last(trace))
      ensures p == if Last(trace).Waiting? then NotYet else Ready(Success(()))
      ensures old(isInitialized) ==> isInitialized
      ensures Last(trace).Served? ==> isInitialized && state.Connected?
      ensures Last(trace).Exhausted? ==> !isInitialized && !state.Connected?
    {
      ghost var before := Snapshot();
      StepKeeps(before, t);
      StepKeepsInitOnce(before, t);
      ReadyStep(before, t);
      ghost var did;
      Interfere(t.lowerBefore);
      p, again, did := PollState(t.outcome, t.id);
      Interfere(t.lowerAfter);
      trace := trace + [did];
      HistoryAppend(before.trace, did);
    }

    /** The body of the loop: the exhaustion check and the match on the state. */
    method PollState(outcome: Outcome, id: ConnectionId) returns (p: Poll, again: bool, ghost did: Label)
      requires state.Connected? ==> connectionId.Some?
      modifies this
      ensures Move(Fields(), did) == Act(old(Fields()), outcome, id)
      ensures trace == old(trace)
      ensures did.Dialled? ==> watch == old(watch) + [None]
      ensures did.InitOk? ==> watch == old(watch) + [Some(did.id)]
      ensures !did.Dialled? && !did.InitOk? ==> watch == old(watch)
      ensures again <==> !Returns(did)
      ensures p == if did.Waiting? then NotYet else Ready(Success(()))
    {
      if !isInitialized && retryCount >= (if maxRetries.Some? then maxRetries.value else 1) {
        retryCount := 0;
        did := Exhausted;
        return Ready(Success(())), false, did;
      }
      match state
      case Idle =>
        watch := watch + [None];
        state := Connecting;
        did := Dialled;
        return Ready(Success(())), true, did;
      case Connecting =>
        p, again, did := PollConnecting(outcome);
      case Initializing =>
        p, again, did := PollInitializing(outcome, id);
      case Connected =>
        p, again, did := PollConnected(outcome);
      case Retry(_) =>
        if outcome == Pending {
          did := Waiting;
          return NotYet, false, did;
        }
        state := Idle;
        did := Slept;
        return Ready(Success(())), true, did;
    }

    method PollConnecting(outcome: Outcome) returns (p: Poll, again: bool, ghost did: Label)
      requires state.Connecting?
      requires isInitialized || retryCount < MaxAttempts(Fields())
      modifies this`state, this`retryCount
      ensures Move(Fields(), did) == Act(old(Fields()), outcome, "")
      ensures again <==> !Returns(did)
      ensures p == if did.Waiting? then NotYet else Ready(Success(()))
    {
      p, again := Ready(Success(())), true;
      match outcome
      case Pending =>
        p, again := NotYet, false;
        did := Waiting;
      case ReadyOk =>
        state := Initializing;
        did := ServiceMade;
      case ReadyErr =>
        GiveUp();
        did := ConnectFailed;
    }

    method PollInitializing(outcome: Outcome, id: ConnectionId) returns (p: Poll, again: bool, ghost did: Label)
      requires state.Initializing?
      requires isInitialized || retryCount < MaxAttempts(Fields())
      modifies this
      ensures Move(Fields(), did) == Act(old(Fields()), outcome, id)
      ensures trace == old(trace)
      ensures watch == if did.InitOk? then old(watch) + [Some(id)] else old(watch)
      ensures again <==> !Returns(did)
      ensures p == if did.Waiting? then NotYet else Ready(Success(()))
    {
      p, again := Ready(Success(())), true;
      match outcome
      case Pending =>
        p, again := NotYet, false;
        did := Waiting;
      case ReadyOk =>
        watch := watch + [Some(id)];
        retryCount := 0;
        health := true;
        isInitialized := true;
        state := Connected;
        connectionId := Some(id);
        did := InitOk(id);
      case ReadyErr =>
        GiveUp();
        did := InitFailed;
    }

    method PollConnected(outcome: Outcome) returns (p: Poll, again: bool, ghost did: Label)
      requires state.Connected? && connectionId.Some?
      requires isInitialized || retryCount < MaxAttempts(Fields())
      modifies this`state, this`retryCount, this`health
      ensures Move(Fields(), did) == Act(old(Fields()), outcome, "")
      ensures again <==> !Returns(did)
      ensures p == if did.Waiting? then NotYet else Ready(Success(()))
    {
      p, again := Ready(Success(())), true;
      match outcome
      case Pending =>
        p, again := NotYet, false;
        did := Waiting;
      case ReadyOk =>
        if !health {
          GiveUp();
          did := Lost(connectionId.value);
        } else {
          again := false;
          did := Served;
        }
      case ReadyErr =>
        health := false;
        GiveUp();
        did := Lost(connectionId.value);
    }

    /** Forwards a request to the live connection; `reply` is what the server answers. */
    method Call<Payload>(reply: Result<Payload, string>) returns (r: Result<Payload, string>)
      ensures state.Connected? ==> r == reply
      ensures !state.Connected? ==> r == Failure(NOT_CONNECTED)
    {
      match state
      case Connected => r := reply;
      case _ => r := Failure(NOT_CONNECTED);
    }

    /** Waits for `poll_ready` and calls: what a sender sees of the two together. */
    method SendRequest<Payload>(turns: nat -> Turn, reply: Result<Payload, string>)
      returns (r: Option<Result<Payload, string>>)
      requires Valid()
      requires FreshSleepsPend(Snapshot(), turns)
      modifies this
      ensures Valid()
      ensures trace != [] && (r.None? <==> Last(trace).Waiting?)
      ensures r.Some? && isInitialized ==> Last(trace).Served? && r.value == reply
      ensures r.Some? && !isInitialized ==>
                Last(trace).Exhausted? && r.value == Failure("the connection is not connected")
    {
      var p, n := PollReady(turns);
      if p.NotYet? {
        return None;
      }
      var answer := Call(reply);
      return Some(answer);
    }

    /** Gives the connection up from outside. */
    method Failover()
      modifies this`health
      ensures !health
    {
      if health {
        health := false;
      }
    }

    /** One round of the health checker: probes a connection idle for a full interval and clears
        the flag when no probe succeeds. */
    method HealthCheckRound(now: nat, lastActive: nat, probe: nat -> Probe)
      modifies this`health
      ensures health == (old(health) && (now < lastActive + 5000 || ProbedHealthy(probe)))
    {
      var idleMillis := if now < lastActive then 0 else now - lastActive;
      if idleMillis < HEALTH_CHECK_INTERVAL_MILLIS {
        return;
      }
      var healthy := Probing(probe);
      if !healthy && health {
        health := false;
      }
    }
  }

  // ---------------------------------------------------------------- the health checker

  const HEALTH_CHECK_INTERVAL_MILLIS: nat := 5000

  const HEALTH_CHECK_RETRY_TIMES: nat := 3

  datatype Probe =
    | NoPayload
    | NotReady
    | TimedOut
    | CallFailed
    | BadResponse
    | Healthy

  /** One of three attempts is healthy, and none before it is of the two kinds that end the round. */
  ghost predicate ProbedHealthy(probe: nat -> Probe) {
    exists i: nat :: i < 3 && probe(i).Healthy? &&
                     forall j: nat :: j < i ==> !probe(j).NoPayload? && !probe(j).NotReady?
  }

  /** The attempts of one round. */
  method Probing(probe: nat -> Probe) returns (healthy: bool)
    ensures healthy <==> ProbedHealthy(probe)
  {
    healthy := false;
    for attempt := 0 to HEALTH_CHECK_RETRY_TIMES
      invariant forall j: nat :: j < attempt ==>
                  !probe(j).NoPayload? && !probe(j).NotReady? && !probe(j).Healthy?
      invariant !healthy
    {
      match probe(attempt)
      case NoPayload =>
        break;
      case NotReady =>
        break;
      case Healthy =>
        healthy := true;
        break;
      case _ =>
    }
  }

  // ---------------------------------------------------------------- the two watchers

  function OpenedIds(links: seq<Link>): seq<ConnectionId> {
    if links == [] then []
    else OpenedIds(Front(links)) + if Last(links).Opened? then [Last(links).id] else []
  }

  function ClosedIds(links: seq<Link>): seq<ConnectionId> {
    if links == [] then []
    else ClosedIds(Front(links)) + if Last(links).Closed? then [Last(links).id] else []
  }

  lemma IdsAppend(links: seq<Link>, link: Link)
    ensures OpenedIds(links + [link]) == OpenedIds(links) + if link.Opened? then [link.id] else []
    ensures ClosedIds(links + [link]) == ClosedIds(links) + if link.Closed? then [link.id] else []
  {
    assert Front(links + [link]) == links;
  }

  /** The connected watcher over the values it sees; `fired` is what it passed to its listener. */
  method ConnectedListener(values: seq<Option<ConnectionId>>) returns (fired: seq<ConnectionId>)
    ensures fired == OpenedIds(Reports(values))
  {
    var previousId: Option<ConnectionId> := None;
    fired := [];
    for i := 0 to |values|
      invariant previousId == if i == 0 then None else values[i - 1]
      invariant fired == OpenedIds(Reports(values[..i]))
    {
      var currentId := values[i];
      if previousId.None? && currentId.Some? {
        fired := fired + [currentId.value];
      }
      previousId := currentId;
      SeenOneMore(values, i);
    }
    assert values[..|values|] == values;
  }

  /** The disconnected watcher over the values it sees. */
  method DisconnectedListener(values: seq<Option<ConnectionId>>) returns (fired: seq<ConnectionId>)
    ensures fired == ClosedIds(Reports(values))
  {
    var previousId: Option<ConnectionId> := None;
    fired := [];
    for i := 0 to |values|
      invariant previousId == if i == 0 then None else values[i - 1]
      invariant fired == ClosedIds(Reports(values[..i]))
    {
      var currentId := values[i];
      if currentId.None? && previousId.Some? {
        fired := fired + [previousId.value];
      }
      previousId := currentId;
      SeenOneMore(values, i);
    }
    assert values[..|values|] == values;
  }

  lemma SeenOneMore(values: seq<Option<ConnectionId>>, i: nat)
    requires i < |values|
    ensures var previous := if i == 0 then None else values[i - 1];
            && OpenedIds(Reports(values[..i + 1])) ==
               OpenedIds(Reports(values[..i])) + (if previous.None? && values[i].Some? then [values[i].value] else [])
            && ClosedIds(Reports(values[..i + 1])) ==
               ClosedIds(Reports(values[..i])) + (if previous.Some? && values[i].None? then [previous.value] else [])
  {
    hide Reports, OpenedIds, ClosedIds;
    var before := values[..i];
    assert values[..i + 1] == before + [values[i]];
    assert i > 0 ==> Last(before) == values[i - 1];
    ReportsAppend(before, values[i]);
    var previous := if i == 0 then None else values[i - 1];
    if previous.None? && values[i].Some? {
      IdsAppend(Reports(before), Opened(values[i].value));
    } else if previous.Some? && values[i].None? {
      IdsAppend(Reports(before), Closed(previous.value));
    } else {
      assert Reports(before) + [] == Reports(before);
    }
  }
}
