/** The connection state machine: `poll_ready`, `call`, and the history a run of them leaves.

    The futures `poll_ready` polls and the other tasks that share the health flag are an
    environment. One `Turn` says how the environment behaves during one iteration of the loop of
    `poll_ready`: the outcome of the one future polled in it, and whether another task lowers the
    health flag before or after the iteration's own access to it.

    A run is any sequence of iterations and of lowerings between them. How iterations are grouped
    into calls of `poll_ready` does not matter for what a run keeps, so the theorems about runs
    cover every schedule of calls. `Step` is one iteration on values; the class in module
    `Connection` is the loop that updates its fields in place, proved against `Step`. */
module ConnectionModel {
  import opened Wrappers
  import opened Arithmetic

  const MAX_RETRY: nat := 6

  const NOT_CONNECTED := "the connection is not connected"

  type ConnectionId = string

  /** Seconds to back off after the `retryCount`-th failure. */
  function SleepTime(retryCount: nat): (seconds: nat) {
    if retryCount > MAX_RETRY then PowerOfTwo(MAX_RETRY) else PowerOfTwo(retryCount)
  }

  datatype State =
    | Idle
    | Connecting
    | Initializing
    | Connected
    | Retry(seconds: nat)

  datatype Conn = Conn(
    state: State,
    health: bool,
    connectionId: Option<ConnectionId>,
    retryCount: nat,
    maxRetries: Option<nat>,
    isInitialized: bool
  )

  datatype Outcome = Pending | ReadyOk | ReadyErr

  /** `id` is the connection id the server hands out, read only when an initialisation succeeds. */
  datatype Turn = Turn(outcome: Outcome, id: ConnectionId, lowerBefore: bool, lowerAfter: bool)

  /** What one iteration did. A run's history is the sequence of its labels. */
  datatype Label =
    | Exhausted              // returned Ready because the attempts ran out
    | Waiting                // returned Pending
    | Served                 // returned Ready on a healthy connection
    | Dialled                // Idle to Connecting; None is sent on the watch
    | ServiceMade
    | ConnectFailed
    | InitOk(id: ConnectionId)  // Some(id) is sent on the watch
    | InitFailed
    | Lost(id: ConnectionId) // a live connection is given up
    | Slept

  predicate Returns(l: Label) {
    l.Exhausted? || l.Waiting? || l.Served?
  }

  function MaxAttempts(c: Conn): nat {
    if c.maxRetries.Some? then c.maxRetries.value else 1
  }

  function BackOff(c: Conn): Conn {
    c.(retryCount := c.retryCount + 1, state := Retry(SleepTime(c.retryCount + 1)))
  }

  function CurrentId(c: Conn): ConnectionId {
    if c.connectionId.Some? then c.connectionId.value else ""
  }

  /** Another task clears the shared flag: the stream task, the health checker or `failover`. */
  function Lowered(c: Conn, lower: bool): Conn {
    c.(health := c.health && !lower)
  }

  datatype Move = Move(conn: Conn, did: Label)

  /** One iteration of the loop, apart from the interference around it. */
  function Act(c: Conn, outcome: Outcome, id: ConnectionId): Move {
    if !c.isInitialized && c.retryCount >= MaxAttempts(c) then
      Move(c.(retryCount := 0), Exhausted)
    else
      match c.state
      case Idle => Move(c.(state := Connecting), Dialled)
      case Connecting => (
        match outcome
        case Pending => Move(c, Waiting)
        case ReadyOk => Move(c.(state := Initializing), ServiceMade)
        case ReadyErr => Move(BackOff(c), ConnectFailed))
      case Initializing => (
        match outcome
        case Pending => Move(c, Waiting)
        case ReadyOk =>
          Move(c.(retryCount := 0, health := true, isInitialized := true, state := Connected,
                  connectionId := Some(id)), InitOk(id))
        case ReadyErr => Move(BackOff(c), InitFailed))
      case Connected => (
        match outcome
        case Pending => Move(c, Waiting)
        case ReadyOk => if !c.health then Move(BackOff(c), Lost(CurrentId(c))) else Move(c, Served)
        case ReadyErr => Move(BackOff(c.(health := false)), Lost(CurrentId(c))))
      case Retry(_) =>
        if outcome.Pending? then Move(c, Waiting) else Move(c.(state := Idle), Slept)
  }

  datatype Run = Run(conn: Conn, trace: seq<Label>)

  function Step(r: Run, t: Turn): Run {
    var move := Act(Lowered(r.conn, t.lowerBefore), t.outcome, t.id);
    Run(Lowered(move.conn, t.lowerAfter), r.trace + [move.did])
  }

  function Start(maxRetries: Option<nat>): Run {
    Run(Conn(Idle, false, None, 0, maxRetries, false), [])
  }

  datatype Event = Iterate(turn: Turn) | LowerHealth

  function PlayEvent(r: Run, e: Event): Run {
    match e
    case Iterate(t) => Step(r, t)
    case LowerHealth => r.(conn := Lowered(r.conn, true))
  }

  function Play(r: Run, events: seq<Event>): Run {
    if events == [] then r else PlayEvent(Play(r, events[..|events| - 1]), events[|events| - 1])
  }

  // ---------------------------------------------------------------- what a history says

  function Last<T>(s: seq<T>): T
    requires s != []
  {
    s[|s| - 1]
  }

  function Front<T>(s: seq<T>): seq<T>
    requires s != []
  {
    s[..|s| - 1]
  }

  /** The values sent on the connection-id watch. */
  function Watch(trace: seq<Label>): seq<Option<ConnectionId>> {
    if trace == [] then []
    else
      var before := Watch(Front(trace));
      match Last(trace)
      case Dialled => before + [None]
      case InitOk(id) => before + [Some(id)]
      case _ => before
  }

  datatype Link = Opened(id: ConnectionId) | Closed(id: ConnectionId)

  /** The lives of the connections: opened by an initialisation, closed when given up. */
  function Links(trace: seq<Label>): seq<Link> {
    if trace == [] then []
    else
      var before := Links(Front(trace));
      match Last(trace)
      case InitOk(id) => before + [Opened(id)]
      case Lost(id) => before + [Closed(id)]
      case _ => before
  }

  function IsFailure(l: Label): bool {
    l.ConnectFailed? || l.InitFailed? || l.Lost?
  }

  /** Connection and initialisation failures. */
  function Failures(trace: seq<Label>): nat {
    if trace == [] then 0
    else Failures(Front(trace)) + if Last(trace).ConnectFailed? || Last(trace).InitFailed? then 1 else 0
  }

  function Exhaustions(trace: seq<Label>): nat {
    if trace == [] then 0
    else Exhaustions(Front(trace)) + if Last(trace).Exhausted? then 1 else 0
  }

  /** Failures since the last successful initialisation. */
  function FailuresSinceSuccess(trace: seq<Label>): nat {
    if trace == [] || Last(trace).InitOk? then 0
    else FailuresSinceSuccess(Front(trace)) + if IsFailure(Last(trace)) then 1 else 0
  }

  /** What two watchers report for a stream of values both of them see: a value after an absent
      one is a connection, an absent value after a present one is a disconnection. */
  function Reports(values: seq<Option<ConnectionId>>): seq<Link> {
    if values == [] then []
    else
      var before := Reports(Front(values));
      var previous := if |values| == 1 then None else values[|values| - 2];
      if previous.None? && Last(values).Some? then before + [Opened(Last(values).value)]
      else if previous.Some? && Last(values).None? then before + [Closed(previous.value)]
      else before
  }

  // ---------------------------------------------------------------- what every run keeps

  ghost predicate InitOnce(r: Run) {
    && (r.conn.isInitialized <==> r.conn.connectionId.Some?)
    && (r.conn.isInitialized <==> exists i :: 0 <= i < |r.trace| && r.trace[i].InitOk?)
    && (r.conn.state.Connected? ==> r.conn.isInitialized)
    && (r.conn.health ==> r.conn.state.Connected?)
  }

  /** The retry count against the failures, exhausted rounds and current streak of a history. */
  ghost predicate Conserved(c: Conn, failures: nat, exhaustions: nat, streak: nat) {
    if c.isInitialized then c.retryCount == streak
    else c.retryCount <= MaxAttempts(c) && failures == MaxAttempts(c) * exhaustions + c.retryCount
  }

  ghost predicate RetriesConserved(r: Run) {
    Conserved(r.conn, Failures(r.trace), Exhaustions(r.trace), FailuresSinceSuccess(r.trace))
  }

  /** A pending back-off was computed from the failure that caused it. */
  ghost predicate BackOffMatches(c: Conn) {
    c.state.Retry? ==>
      c.state.seconds == SleepTime(if c.retryCount == 0 then MaxAttempts(c) else c.retryCount)
  }

  /** The connection was given up and the watch has not been told yet. */
  ghost predicate Untold(c: Conn, sent: seq<Option<ConnectionId>>) {
    && (c.state.Idle? || c.state.Retry?)
    && sent != []
    && Last(sent).Some?
  }

  ghost predicate SomeAfterNone(sent: seq<Option<ConnectionId>>) {
    forall i :: 0 <= i < |sent| && sent[i].Some? ==> 0 < i && sent[i - 1].None?
  }

  /** What was sent on the watch against the lives of the connections. */
  ghost predicate Told(c: Conn, sent: seq<Option<ConnectionId>>, links: seq<Link>) {
    && SomeAfterNone(sent)
    && (c.state.Connecting? || c.state.Initializing? ==> sent != [] && Last(sent).None?)
    && (c.state.Connected? ==> sent != [] && Last(sent) == c.connectionId)
    && links == Reports(sent) + if Untold(c, sent) then [Closed(Last(sent).value)] else []
  }

  ghost predicate WatchTold(r: Run) {
    Told(r.conn, Watch(r.trace), Links(r.trace))
  }

  ghost predicate Inv(r: Run) {
    InitOnce(r) && RetriesConserved(r) && BackOffMatches(r.conn) && WatchTold(r)
  }

  lemma StepKeepsInitOnce(r: Run, t: Turn)
    requires InitOnce(r)
    ensures InitOnce(Step(r, t))
    ensures r.conn.isInitialized ==> Step(r, t).conn.isInitialized
    ensures r.conn.connectionId.Some? ==> Step(r, t).conn.connectionId.Some?
    ensures Step(r, t).conn.maxRetries == r.conn.maxRetries
  {
    var r' := Step(r, t);
    assert forall i :: 0 <= i < |r.trace| ==> r'.trace[i] == r.trace[i];
    if r'.trace[|r.trace|].InitOk? {
      assert r'.conn.isInitialized;
    }
  }

  lemma ActKeepsConserved(c: Conn, outcome: Outcome, id: ConnectionId, failures: nat, exhaustions: nat, streak: nat)
    requires c.state.Connected? ==> c.isInitialized
    requires Conserved(c, failures, exhaustions, streak) && BackOffMatches(c)
    ensures var Move(c', l) := Act(c, outcome, id);
            && BackOffMatches(c')
            && Conserved(c',
                         failures + if l.ConnectFailed? || l.InitFailed? then 1 else 0,
                         exhaustions + if l.Exhausted? then 1 else 0,
                         if l.InitOk? then 0 else streak + if IsFailure(l) then 1 else 0)
  {
    var Move(c', l) := Act(c, outcome, id);
    if l.Exhausted? {
      var m := MaxAttempts(c);
      assert m * (exhaustions + 1) == m * exhaustions + m;
    }
  }

  lemma CountsAppend(trace: seq<Label>, l: Label)
    ensures Failures(trace + [l]) == Failures(trace) + if l.ConnectFailed? || l.InitFailed? then 1 else 0
    ensures Exhaustions(trace + [l]) == Exhaustions(trace) + if l.Exhausted? then 1 else 0
    ensures FailuresSinceSuccess(trace + [l]) ==
            if l.InitOk? then 0 else FailuresSinceSuccess(trace) + if IsFailure(l) then 1 else 0
  {
    assert Front(trace + [l]) == trace;
  }

  lemma StepKeepsRetries(r: Run, t: Turn)
    requires InitOnce(r) && RetriesConserved(r) && BackOffMatches(r.conn)
    ensures RetriesConserved(Step(r, t)) && BackOffMatches(Step(r, t).conn)
  {
    CountsAppend(r.trace, Last(Step(r, t).trace));
    ActKeepsConserved(Lowered(r.conn, t.lowerBefore), t.outcome, t.id,
                      Failures(r.trace), Exhaustions(r.trace), FailuresSinceSuccess(r.trace));
  }

  lemma ReportsAppend(values: seq<Option<ConnectionId>>, v: Option<ConnectionId>)
    ensures Reports(values + [v]) ==
            Reports(values) +
            if (values == [] || Last(values).None?) && v.Some? then [Opened(v.value)]
            else if values != [] && Last(values).Some? && v.None? then [Closed(Last(values).value)]
            else []
  {
    assert Front(values + [v]) == values;
  }

  lemma HistoryAppend(trace: seq<Label>, l: Label)
    ensures Watch(trace + [l]) ==
            Watch(trace) + if l.Dialled? then [None] else if l.InitOk? then [Some(l.id)] else []
    ensures Links(trace + [l]) ==
            Links(trace) + if l.InitOk? then [Opened(l.id)] else if l.Lost? then [Closed(l.id)] else []
  {
    assert Front(trace + [l]) == trace;
  }

  lemma ActKeepsTold(c: Conn, outcome: Outcome, id: ConnectionId, sent: seq<Option<ConnectionId>>, links: seq<Link>)
    requires c.state.Connected? ==> c.isInitialized && c.connectionId.Some?
    requires Told(c, sent, links)
    ensures var Move(c', l) := Act(c, outcome, id);
            Told(c',
                 sent + if l.Dialled? then [None] else if l.InitOk? then [Some(l.id)] else [],
                 links + if l.InitOk? then [Opened(l.id)] else if l.Lost? then [Closed(l.id)] else [])
  {
    var Move(c', l) := Act(c, outcome, id);
    hide Reports, SomeAfterNone;
    match l
    case Dialled =>
      ReportsAppend(sent, None);
      SomeAfterNoneAppend(sent, None);
    case InitOk(id) =>
      ReportsAppend(sent, Some(id));
      SomeAfterNoneAppend(sent, Some(id));
    case _ =>
      assert sent + [] == sent;
  }

  lemma SomeAfterNoneAppend(sent: seq<Option<ConnectionId>>, v: Option<ConnectionId>)
    ensures SomeAfterNone(sent + [v]) <==>
            SomeAfterNone(sent) && (v.Some? ==> sent != [] && Last(sent).None?)
  {
    var more := sent + [v];
    assert forall i :: 0 <= i < |sent| ==> more[i] == sent[i];
    assert more[|sent|] == v;
  }

  lemma StepKeepsWatch(r: Run, t: Turn)
    requires InitOnce(r) && WatchTold(r)
    ensures WatchTold(Step(r, t))
  {
    HistoryAppend(r.trace, Last(Step(r, t).trace));
    ActKeepsTold(Lowered(r.conn, t.lowerBefore), t.outcome, t.id, Watch(r.trace), Links(r.trace));
  }

  lemma StepKeeps(r: Run, t: Turn)
    requires Inv(r)
    ensures Inv(Step(r, t))
    ensures Step(r, t).conn.maxRetries == r.conn.maxRetries
  {
    StepKeepsInitOnce(r, t);
    StepKeepsRetries(r, t);
    StepKeepsWatch(r, t);
  }

  lemma LoweringKeeps(r: Run)
    requires Inv(r)
    ensures Inv(r.(conn := Lowered(r.conn, true)))
  {
  }

  lemma PlayEventKeeps(r: Run, e: Event)
    requires Inv(r)
    ensures Inv(PlayEvent(r, e))
    ensures PlayEvent(r, e).conn.maxRetries == r.conn.maxRetries
  {
    match e
    case Iterate(t) =>
      StepKeeps(r, t);
    case LowerHealth =>
      LoweringKeeps(r);
  }

  lemma StartKeeps(maxRetries: Option<nat>)
    ensures Inv(Start(maxRetries)) && Watch(Start(maxRetries).trace) == []
  {
    var r := Start(maxRetries);
    assert Exhaustions(r.trace) == 0 && Failures(r.trace) == 0;
    assert MaxAttempts(r.conn) * 0 == 0;
    assert RetriesConserved(r);
    assert Watch(r.trace) == [] && Links(r.trace) == [] && Reports([]) == [];
    assert WatchTold(r) by {
      hide RetriesConserved;
    }
  }

  /** Every reachable state, whatever the futures and the other tasks do. */
  lemma {:induction false} EveryRunKeeps(maxRetries: Option<nat>, events: seq<Event>)
    ensures Inv(Play(Start(maxRetries), events))
    ensures Play(Start(maxRetries), events).conn.maxRetries == maxRetries
  {
    if events != [] {
      EveryRunKeeps(maxRetries, events[..|events| - 1]);
      PlayEventKeeps(Play(Start(maxRetries), events[..|events| - 1]), Last(events));
    }
  }

  // ---------------------------------------------------------------- theorems about runs

  /** Before the first initialisation every failure is accounted for by an exhausted round of
      attempts or by the current count; afterwards the count is the current streak. */
  lemma RetryConservation(maxRetries: Option<nat>, events: seq<Event>)
    ensures var r := Play(Start(maxRetries), events);
            var m := if maxRetries.Some? then maxRetries.value else 1;
            if r.conn.isInitialized then r.conn.retryCount == FailuresSinceSuccess(r.trace)
            else && r.conn.retryCount <= m
                 && Failures(r.trace) == m * Exhaustions(r.trace) + r.conn.retryCount
  {
    EveryRunKeeps(maxRetries, events);
  }

  /** Initialisation is never undone, a connection id once stored stays stored, and the
      two go together. */
  lemma {:induction false} InitializedNeverReverts(r: Run, events: seq<Event>)
    requires Inv(r)
    ensures Inv(Play(r, events))
    ensures r.conn.isInitialized ==> Play(r, events).conn.isInitialized
    ensures Play(r, events).conn.isInitialized <==> Play(r, events).conn.connectionId.Some?
  {
    if events != [] {
      InitializedNeverReverts(r, events[..|events| - 1]);
      var before := Play(r, events[..|events| - 1]);
      match Last(events)
      case Iterate(t) =>
        StepKeeps(before, t);
        StepKeepsInitOnce(before, t);
      case LowerHealth =>
        LoweringKeeps(before);
    }
  }

  /** What a return with Ready means, one iteration after a state every run keeps. */
  lemma ReadyStep(r: Run, t: Turn)
    requires Inv(r)
    ensures var r' := Step(r, t);
            var l := Last(r'.trace);
            && (r.conn.isInitialized ==> !l.Exhausted?)
            && (l.Served? ==> && r.conn.isInitialized && r'.conn.isInitialized
                              && r'.conn.state.Connected?
                              && r.conn.health && !t.lowerBefore)
            && (l.Exhausted? ==> && !r'.conn.isInitialized
                                 && !r'.conn.state.Connected?
                                 && r'.conn.retryCount == 0)
  {
  }

  /** What a return of `poll_ready` with Ready tells its caller, in every run. */
  lemma ReadyMeans(maxRetries: Option<nat>, events: seq<Event>, t: Turn)
    ensures var r := Play(Start(maxRetries), events);
            var r' := Step(r, t);
            var l := Last(r'.trace);
            && (r.conn.isInitialized ==> !l.Exhausted?)
            && (l.Served? ==> && r.conn.isInitialized && r'.conn.isInitialized
                              && r'.conn.state.Connected?
                              && r.conn.health && !t.lowerBefore)
            && (l.Exhausted? ==> && !r'.conn.isInitialized
                                 && !r'.conn.state.Connected?
                                 && Failures(r'.trace) == MaxAttempts(r'.conn) * Exhaustions(r'.trace))
  {
    EveryRunKeeps(maxRetries, events);
    var r := Play(Start(maxRetries), events);
    StepKeeps(r, t);
    ReadyStep(r, t);
  }

  lemma ActOnHealth(c: Conn, outcome: Outcome, id: ConnectionId)
    ensures var Move(c', l) := Act(c, outcome, id);
            && (!c.health && c'.health ==> l.InitOk?)
            && (c.health && !c'.health ==> l.Lost? && outcome.ReadyErr?)
  {
  }

  /** Only a successful initialisation raises the shared flag, and it is up only on a live
      connection; it goes down when another task lowers it or the service itself fails. */
  lemma OnlyInitRaisesHealth(maxRetries: Option<nat>, events: seq<Event>, t: Turn)
    ensures var r := Play(Start(maxRetries), events);
            var r' := Step(r, t);
            && (r.conn.health ==> r.conn.state.Connected?)
            && (!r.conn.health && r'.conn.health ==> Last(r'.trace).InitOk?)
            && (r.conn.health && !r'.conn.health ==>
                  t.lowerBefore || t.lowerAfter || (Last(r'.trace).Lost? && t.outcome.ReadyErr?))
  {
    hide Act, Play, RetriesConserved, WatchTold, BackOffMatches;
    EveryRunKeeps(maxRetries, events);
    var r := Play(Start(maxRetries), events);
    ActOnHealth(Lowered(r.conn, t.lowerBefore), t.outcome, t.id);
  }

  /** An iteration makes a new connection, and nobody lowers the flag after it. */
  ghost predicate Raises(r: Run, e: Event) {
    e.Iterate? && Last(Step(r, e.turn).trace).InitOk? && !e.turn.lowerAfter
  }

  /** Another task lowers the flag, or the iteration gives the connection up. */
  ghost predicate Clears(r: Run, e: Event) {
    e.LowerHealth? || e.turn.lowerBefore || e.turn.lowerAfter || Last(Step(r, e.turn).trace).Lost?
  }

  /** The event at `i` raises the flag, and no later event clears it. */
  ghost predicate StaysUp(maxRetries: Option<nat>, events: seq<Event>, i: int) {
    && 0 <= i < |events|
    && Raises(Play(Start(maxRetries), events[..i]), events[i])
    && forall j :: i < j < |events| ==> !Clears(Play(Start(maxRetries), events[..j]), events[j])
  }

  /** What one iteration makes of the flag, and what it does with a live connection. */
  lemma HealthStep(r: Run, t: Turn)
    requires Inv(r)
    ensures var r' := Step(r, t);
            var l := Last(r'.trace);
            && (r'.conn.health <==>
                  (l.InitOk? || (r.conn.health && !t.lowerBefore && !l.Lost?)) && !t.lowerAfter)
            && (l.InitOk? <==> r.conn.state.Initializing? && t.outcome.ReadyOk? && !l.Exhausted?)
            && (r.conn.state.Connected? ==>
                  match t.outcome
                  case Pending => l == Waiting
                  case ReadyErr => l == Lost(r.conn.connectionId.value)
                  case ReadyOk => l == if r.conn.health && !t.lowerBefore then Served
                                       else Lost(r.conn.connectionId.value))
  {
    hide RetriesConserved, WatchTold, BackOffMatches, SleepTime, PowerOfTwo;
  }

  /** When each thing happens in one iteration, and where it leads. Attempts that ran out come first;
      a pending future makes the call wait; a failure backs off. */
  lemma IterationIs(r: Run, t: Turn)
    requires Inv(r)
    ensures var r' := Step(r, t);
            var s, s', l := r.conn.state, r'.conn.state, Last(r'.trace);
            var allowed := if r.conn.maxRetries.Some? then r.conn.maxRetries.value else 1;
            && (l == Exhausted <==> !r.conn.isInitialized && r.conn.retryCount >= allowed)
            && (l != Exhausted ==>
                  && (l == Dialled <==> s.Idle?)
                  && (l == Waiting <==> !s.Idle? && t.outcome.Pending?)
                  && (l == ServiceMade <==> s.Connecting? && t.outcome.ReadyOk?)
                  && (l == ConnectFailed <==> s.Connecting? && t.outcome.ReadyErr?)
                  && (l == InitOk(t.id) <==> s.Initializing? && t.outcome.ReadyOk?)
                  && (l == InitFailed <==> s.Initializing? && t.outcome.ReadyErr?)
                  && (l == Slept <==> s.Retry? && !t.outcome.Pending?))
            && (if l == Dialled then s'.Connecting?
                else if l == ServiceMade then s'.Initializing?
                else if l.InitOk? then s'.Connected?
                else if IsFailure(l) then s'.Retry?
                else if l == Slept then s'.Idle?
                else s' == s)
            && r'.conn.retryCount ==
               (if l == Exhausted || l.InitOk? then 0
                else if l == ConnectFailed || l == InitFailed || l.Lost? then r.conn.retryCount + 1
                else r.conn.retryCount)
            && r'.conn.connectionId == (if l.InitOk? then Some(t.id) else r.conn.connectionId)
            && r'.conn.isInitialized == (l.InitOk? || r.conn.isInitialized)
  {
    hide RetriesConserved, WatchTold, BackOffMatches, SleepTime, PowerOfTwo;
  }

  lemma StaysUpOneMore(maxRetries: Option<nat>, front: seq<Event>, e: Event)
    ensures forall i :: StaysUp(maxRetries, front + [e], i) <==>
              if i == |front| then Raises(Play(Start(maxRetries), front), e)
              else StaysUp(maxRetries, front, i) && !Clears(Play(Start(maxRetries), front), e)
  {
    hide Play, Raises, Clears;
    var events := front + [e];
    assert events[..|front|] == front && events[|front|] == e;
    assert forall j :: 0 <= j < |front| ==> events[j] == front[j] && events[..j] == front[..j];
  }

  lemma HealthAfter(r: Run, e: Event)
    requires Inv(r)
    ensures PlayEvent(r, e).conn.health <==> Raises(r, e) || (r.conn.health && !Clears(r, e))
  {
    hide Inv, Step;
    if e.Iterate? {
      HealthStep(r, e.turn);
    }
  }

  /** Exactly when the health flag is up, over every run: a connection was initialised, and since then
      nobody lowered the flag and no iteration gave the connection up. */
  lemma {:induction false} HealthIff(maxRetries: Option<nat>, events: seq<Event>)
    ensures Play(Start(maxRetries), events).conn.health <==> exists i :: StaysUp(maxRetries, events, i)
  {
    if events != [] {
      var n := |events| - 1;
      var front, e := events[..n], events[n];
      var before := Play(Start(maxRetries), front);
      assert events == front + [e];
      assert Play(Start(maxRetries), events) == PlayEvent(before, e);
      hide *;
      HealthIff(maxRetries, front);
      EveryRunKeeps(maxRetries, front);
      HealthAfter(before, e);
      StaysUpOneMore(maxRetries, front, e);
      if Raises(before, e) {
        assert StaysUp(maxRetries, events, n);
      } else if i :| StaysUp(maxRetries, front, i) {
        assert StaysUp(maxRetries, events, i) <==> i != n && !Clears(before, e);
      }
    }
  }

  /** So a live connection that is ready is served exactly when the flag stayed up since it was made,
      and given up otherwise. */
  lemma ServedIff(maxRetries: Option<nat>, events: seq<Event>, t: Turn)
    requires Play(Start(maxRetries), events).conn.state.Connected? && t.outcome.ReadyOk?
    ensures var r := Play(Start(maxRetries), events);
            var up := !t.lowerBefore && exists i :: StaysUp(maxRetries, events, i);
            && r.conn.connectionId.Some?
            && Last(Step(r, t).trace) == if up then Served else Lost(r.conn.connectionId.value)
  {
    EveryRunKeeps(maxRetries, events);
    var r := Play(Start(maxRetries), events);
    HealthStep(r, t);
    HealthIff(maxRetries, events);
    hide Step, Play, StaysUp, RetriesConserved, WatchTold, BackOffMatches;
  }

  // ---------------------------------------------------------------- when everything goes well

  /** The run after `n` more iterations in which the polled future succeeds. */
  function AfterSuccesses(r: Run, id: ConnectionId, n: nat): Run
    decreases n
  {
    if n == 0 then r else AfterSuccesses(Step(r, SucceedAs(id)), id, n - 1)
  }

  /** How many iterations away a served request is at most when every future succeeds. */
  function Distance(c: Conn): nat {
    if !c.isInitialized && c.retryCount >= MaxAttempts(c) then 7
    else
      match c.state
      case Connected => if c.health then 1 else 6
      case Retry(_) => 5
      case Idle => 4
      case Connecting => 3
      case Initializing => 2
  }

  lemma GoodAct(c: Conn, id: ConnectionId)
    requires c.maxRetries != Some(0)
    requires c.state.Connected? ==> c.isInitialized
    ensures var Move(c', l) := Act(c, ReadyOk, id);
            && (l.Served? <==> Distance(c) == 1)
            && (!l.Served? ==> Distance(c') < Distance(c))
  {
    hide SleepTime;
  }

  lemma GoodStep(r: Run, id: ConnectionId)
    requires Inv(r) && r.conn.maxRetries != Some(0)
    ensures var r' := Step(r, SucceedAs(id));
            && (Last(r'.trace).Served? <==> Distance(r.conn) == 1)
            && (!Last(r'.trace).Served? ==> Distance(r'.conn) < Distance(r.conn))
            && Inv(r') && r'.conn.maxRetries == r.conn.maxRetries
  {
    StepKeeps(r, SucceedAs(id));
    GoodAct(r.conn, id);
    hide RetriesConserved, WatchTold, BackOffMatches, Act, Distance;
    assert Lowered(r.conn, false) == r.conn;
  }

  /** From every kept state, when the futures succeed and nobody lowers the flag, a request is
      served after at most seven iterations: whatever went wrong before is recovered from. */
  lemma {:induction false} GoodTurnsServe(r: Run, id: ConnectionId) returns (n: nat)
    requires Inv(r) && r.conn.maxRetries != Some(0)
    ensures 0 < n <= Distance(r.conn) <= 7
    ensures AfterSuccesses(r, id, n).trace != [] && Last(AfterSuccesses(r, id, n).trace) == Served
    decreases Distance(r.conn)
  {
    GoodStep(r, id);
    var next := Step(r, SucceedAs(id));
    if Last(next.trace).Served? {
      assert AfterSuccesses(r, id, 1) == AfterSuccesses(next, id, 0) == next;
      return 1;
    }
    hide Step, Inv;
    var m := GoodTurnsServe(next, id);
    n := m + 1;
  }

  /** The back-off is a power of two, doubles with each failure and is capped at 64 seconds. */
  lemma SleepTimeIsCappedDoubling(retryCount: nat)
    ensures SleepTime(retryCount) <= 64
    ensures SleepTime(0) == 1
    ensures retryCount < MAX_RETRY ==> SleepTime(retryCount + 1) == 2 * SleepTime(retryCount)
    ensures retryCount >= MAX_RETRY ==> SleepTime(retryCount) == 64
  {
    assert PowerOfTwo(3) == 8;
    assert PowerOfTwo(6) == 64;
    if retryCount < 3 {
    } else if retryCount < 6 {
      assert PowerOfTwo(5) == 32;
    }
  }

  // ---------------------------------------------------------------- callbacks

  ghost predicate Alternates(links: seq<Link>) {
    forall i :: 0 <= i < |links| ==> (links[i].Opened? <==> i % 2 == 0)
  }

  /** Every disconnection names the connection that the report before it opened. */
  ghost predicate Paired(links: seq<Link>) {
    forall i :: 0 < i < |links| && links[i].Closed? ==> links[i - 1] == Opened(links[i].id)
  }

  /** Two watchers that see the same stream report in strict alternation, starting with a
      connection, for any stream at all: so also when both miss the same values. */
  lemma {:induction false} ReportsAlternate(values: seq<Option<ConnectionId>>)
    ensures Alternates(Reports(values))
    ensures values != [] ==> (Last(values).Some? <==> |Reports(values)| % 2 == 1)
    ensures values == [] ==> Reports(values) == []
  {
    if values != [] {
      ReportsAlternate(Front(values));
      if |values| > 1 {
        assert Last(Front(values)) == values[|values| - 2];
      }
    }
  }

  /** Without lost values the reports pair up by connection id. */
  lemma {:induction false} ReportsPair(values: seq<Option<ConnectionId>>)
    requires SomeAfterNone(values)
    ensures Paired(Reports(values))
    ensures values != [] && Last(values).Some? ==>
              Reports(values) != [] && Last(Reports(values)) == Opened(Last(values).value)
  {
    if values != [] {
      ReportsPair(Front(values));
      ReportsAlternate(Front(values));
      if |values| > 1 {
        assert Last(Front(values)) == values[|values| - 2];
      }
    }
  }

  /** Both callbacks together, over every run: each successful initialisation is reported as a
      connection at once, each connection given up is reported as a disconnection with its own id
      when the machine leaves Idle, and nothing else is reported. */
  lemma CallbacksFollowConnections(maxRetries: Option<nat>, events: seq<Event>)
    ensures var r := Play(Start(maxRetries), events);
            var links := Links(r.trace);
            var reports := Reports(Watch(r.trace));
            && Alternates(links) && Paired(links)
            && Alternates(reports) && Paired(reports)
            && SomeAfterNone(Watch(r.trace))
            && (reports == links ||
                (&& links != [] && Last(links).Closed? && reports == Front(links)
                 && (r.conn.state.Idle? || r.conn.state.Retry?)))
  {
    EveryRunKeeps(maxRetries, events);
    var r := Play(Start(maxRetries), events);
    var sent := Watch(r.trace);
    hide Play, Reports, Watch, Links, InitOnce, RetriesConserved, BackOffMatches, SomeAfterNone;
    ReportsAlternate(sent);
    ReportsPair(sent);
    var links := Links(r.trace);
    if Untold(r.conn, sent) {
      assert Front(links) == Reports(sent);
    } else {
      assert links == Reports(sent);
    }
  }

  /** `values[i..j]` is a longest stretch of present values, ended by an absent one. */
  ghost predicate Stretch(values: seq<Option<ConnectionId>>, i: int, j: int) {
    && 0 <= i < j < |values|
    && (i == 0 || values[i - 1].None?)
    && (forall k :: i <= k < j ==> values[k].Some?)
    && values[j].None?
  }

  /** Each such stretch ends with the id it begins with. */
  ghost predicate OneIdPerStretch(values: seq<Option<ConnectionId>>) {
    forall i, j :: Stretch(values, i, j) ==> values[i] == values[j - 1]
  }

  /** While a stretch is open, the last report is the opening of its first id. */
  lemma {:induction false} OpenStretch(values: seq<Option<ConnectionId>>) returns (i: nat)
    requires values != [] && Last(values).Some?
    ensures i < |values| && (i == 0 || values[i - 1].None?)
    ensures forall k :: i <= k < |values| ==> values[k].Some?
    ensures Reports(values) != [] && Last(Reports(values)) == Opened(values[i].value)
  {
    var n := |values| - 1;
    ReportsAppend(Front(values), Last(values));
    assert values == Front(values) + [Last(values)];
    if n == 0 || values[n - 1].None? {
      return n;
    }
    hide Reports;
    assert Last(Front(values)) == values[n - 1];
    i := OpenStretch(Front(values));
    assert forall k :: 0 <= k < n ==> Front(values)[k] == values[k];
  }

  lemma StretchesAppend(values: seq<Option<ConnectionId>>, v: Option<ConnectionId>, i: nat, j: int)
    ensures j < |values| ==> (Stretch(values + [v], i, j) <==> Stretch(values, i, j))
  {
    assert forall k :: 0 <= k < |values| ==> (values + [v])[k] == values[k];
  }

  lemma OneIdAppend(values: seq<Option<ConnectionId>>, v: Option<ConnectionId>, i: nat)
    requires i <= |values| && (i == 0 || values[i - 1].None?)
    requires forall k :: i <= k < |values| ==> values[k].Some?
    ensures OneIdPerStretch(values + [v]) <==>
            OneIdPerStretch(values) && (i < |values| && v.None? ==> values[i] == Last(values))
  {
    var more := values + [v];
    assert forall k :: 0 <= k < |values| ==> more[k] == values[k];
    forall i': nat, j | j < |values| ensures Stretch(more, i', j) <==> Stretch(values, i', j) {
      StretchesAppend(values, v, i', j);
    }
    assert forall i': nat :: Stretch(more, i', |values|) ==> i' == i;
    assert i < |values| && v.None? ==> Stretch(more, i, |values|);
  }

  lemma PairedAppend(links: seq<Link>, l: Link)
    ensures Paired(links + [l]) <==>
            Paired(links) && (l.Closed? && links != [] ==> Last(links) == Opened(l.id))
  {
    var more := links + [l];
    assert forall k :: 0 <= k < |links| ==> more[k] == links[k];
    if Paired(more) {
      forall k | 0 < k < |links| && links[k].Closed? ensures links[k - 1] == Opened(links[k].id) {
        assert more[k].Closed?;
      }
      assert l.Closed? && links != [] ==> more[|links|].Closed?;
    }
  }

  /** For whatever values two watchers see, what they report pairs up by connection id exactly when
      every stretch of present values ends with the id it begins with. */
  lemma {:induction false} ReportsPairIff(values: seq<Option<ConnectionId>>)
    ensures Paired(Reports(values)) <==> OneIdPerStretch(values)
  {
    if values != [] {
      var front, v := Front(values), Last(values);
      ReportsPairIff(front);
      ReportsAppend(front, v);
      assert values == front + [v];
      hide Reports, OneIdPerStretch, Paired;
      if front != [] && Last(front).Some? {
        var i := OpenStretch(front);
        OneIdAppend(front, v, i);
        if v.None? {
          PairedAppend(Reports(front), Closed(Last(front).value));
        }
      } else {
        OneIdAppend(front, v, |front|);
        if v.Some? {
          PairedAppend(Reports(front), Opened(v.value));
        }
      }
    }
  }

  /** What a watcher sees that reads the channel only after the sends at the given positions. */
  function Seen(sent: seq<Option<ConnectionId>>, at: seq<nat>): seq<Option<ConnectionId>>
    requires forall i :: 0 <= i < |at| ==> at[i] < |sent|
  {
    seq(|at|, i requires 0 <= i < |at| => sent[at[i]])
  }

  ghost predicate Increasing(at: seq<nat>) {
    forall i, j :: 0 <= i < j < |at| ==> at[i] < at[j]
  }

  const DIAL := Turn(Pending, "", false, false)

  const SUCCEED := Turn(ReadyOk, "", false, false)

  const FAIL := Turn(ReadyErr, "", false, false)

  function SucceedAs(id: ConnectionId): Turn {
    Turn(ReadyOk, id, false, false)
  }

  /** A connection from dialling to the end of the back-off after its loss. */
  function Life(id: ConnectionId): seq<Event> {
    [Iterate(DIAL), Iterate(SUCCEED), Iterate(SucceedAs(id)), Iterate(FAIL), Iterate(SUCCEED)]
  }

  predicate HasAttempts(c: Conn) {
    c.isInitialized || c.retryCount < MaxAttempts(c)
  }

  lemma Dialling(r: Run)
    requires r.conn.state.Idle? && HasAttempts(r.conn)
    ensures var r' := Step(r, DIAL);
            && r'.conn == r.conn.(state := Connecting) && HasAttempts(r'.conn)
            && Watch(r'.trace) == Watch(r.trace) + [None] && Last(Watch(r'.trace)) == None
  {
    hide Watch, Links;
    HistoryAppend(r.trace, Dialled);
  }

  lemma Serving(r: Run, id: ConnectionId)
    requires r.conn.state.Connecting? && HasAttempts(r.conn)
    ensures var r' := Step(Step(r, SUCCEED), SucceedAs(id));
            && r'.conn.state.Connected? && r'.conn.isInitialized && r'.conn.connectionId == Some(id)
            && Watch(r'.trace) == Watch(r.trace) + [Some(id)] && Last(Watch(r'.trace)) == Some(id)
  {
    hide Watch, Links;
    HistoryAppend(r.trace, ServiceMade);
    HistoryAppend(Step(r, SUCCEED).trace, InitOk(id));
    assert Watch(r.trace) + [] == Watch(r.trace);
  }

  lemma Losing(r: Run)
    requires r.conn.state.Connected? && r.conn.isInitialized
    ensures var r' := Step(Step(r, FAIL), SUCCEED);
            && r'.conn.state.Idle? && r'.conn.isInitialized
            && Watch(r'.trace) == Watch(r.trace)
  {
    hide Watch, Links;
    HistoryAppend(r.trace, Lost(CurrentId(r.conn)));
    HistoryAppend(Step(r, FAIL).trace, Slept);
    assert Watch(r.trace) + [] == Watch(r.trace);
  }

  lemma {:induction false} PlayOn(r: Run, events: seq<Event>, more: seq<Event>)
    ensures Play(r, events + more) == Play(Play(r, events), more)
  {
    if more == [] {
      assert events + more == events;
    } else {
      hide Step;
      PlayOn(r, events, Front(more));
      assert Front(events + more) == events + Front(more);
    }
  }

  lemma PlayOne(r: Run, turn: Turn)
    ensures Play(r, [Iterate(turn)]) == Step(r, turn)
  {
    assert [Iterate(turn)][..0] == [];
  }

  lemma LifeSends(r: Run, id: ConnectionId)
    requires r.conn.state.Idle? && HasAttempts(r.conn)
    ensures var r' := Play(r, Life(id));
            && r'.conn.state.Idle? && r'.conn.isInitialized
            && Watch(r'.trace) == Watch(r.trace) + [None, Some(id)]
  {
    LifeSteps(r, id);
    Dialling(r);
    hide Step, Watch, Play;
    var dialled := Step(r, DIAL);
    Serving(dialled, id);
    Losing(Step(Step(dialled, SUCCEED), SucceedAs(id)));
  }

  lemma LifeSteps(r: Run, id: ConnectionId)
    ensures Play(r, Life(id)) ==
            Step(Step(Step(Step(Step(r, DIAL), SUCCEED), SucceedAs(id)), FAIL), SUCCEED)
  {
    hide Step;
    var life := Life(id);
    assert life[..4][..3] == life[..3] && life[..3][..2] == life[..2] && life[..2][..1] == life[..1];
    assert life[..1][..0] == [];
    assert Play(r, life[..1]) == Step(r, DIAL);
    assert Play(r, life[..2]) == Step(Play(r, life[..1]), SUCCEED);
    assert Play(r, life[..3]) == Step(Play(r, life[..2]), SucceedAs(id));
    assert Play(r, life[..4]) == Step(Play(r, life[..3]), FAIL);
  }

  /** What is sent while two connections live one after the other and a third is dialled. */
  lemma TwoLivesSend(maxRetries: Option<nat>, a: ConnectionId, b: ConnectionId)
    requires maxRetries != Some(0)
    ensures Watch(Play(Start(maxRetries), Life(a) + Life(b) + [Iterate(DIAL)]).trace) ==
            [None, Some(a), None, Some(b), None]
  {
    hide Life, Act;
    var start := Start(maxRetries);
    var first := Play(start, Life(a));
    var second := Play(first, Life(b));
    assert Watch(start.trace) == [];
    LifeSends(start, a);
    LifeSends(first, b);
    PlayOn(start, Life(a), Life(b));
    PlayOn(start, Life(a) + Life(b), [Iterate(DIAL)]);
    PlayOne(second, DIAL);
    Dialling(second);
  }

  /** Watchers that miss the None between two connections report the second one's end under the
      first one's opening: alternation survives lost values, pairing by id need not. The values
      lost here are two of those a run sends. */
  lemma PairingCanFail(maxRetries: Option<nat>, a: ConnectionId, b: ConnectionId)
    returns (events: seq<Event>, at: seq<nat>)
    requires maxRetries != Some(0) && a != b
    ensures var sent := Watch(Play(Start(maxRetries), events).trace);
            && Increasing(at) && (forall i :: 0 <= i < |at| ==> at[i] < |sent|)
            && at != [] && Last(at) == |sent| - 1
            && Reports(sent) == [Opened(a), Closed(a), Opened(b), Closed(b)]
            && Reports(Seen(sent, at)) == [Opened(a), Closed(b)]
            && !Paired(Reports(Seen(sent, at)))
  {
    events, at := Life(a) + Life(b) + [Iterate(DIAL)], [1, 3, 4];
    TwoLivesSend(maxRetries, a, b);
    hide Life, Play, Watch, Reports;
    ReportsOfLives(a, b);
    assert Seen([None, Some(a), None, Some(b), None], at) == [Some(a), Some(b), None];
    ReportsOfLossy(a, b);
    var reports := [Opened(a), Closed(b)];
    assert reports[1].Closed? && reports[0] != Opened(reports[1].id);
  }

  lemma ReportsOfLives(a: ConnectionId, b: ConnectionId)
    ensures Reports([None, Some(a), None, Some(b)]) == [Opened(a), Closed(a), Opened(b)]
    ensures Reports([None, Some(a), None, Some(b), None]) == [Opened(a), Closed(a), Opened(b), Closed(b)]
  {
    hide Reports;
    ReportsOfOne(None);
    ReportsAppend([None], Some(a));
    assert [None] + [Some(a)] == [None, Some(a)];
    ReportsAppend([None, Some(a)], None);
    assert [None, Some(a)] + [None] == [None, Some(a), None];
    ReportsAppend([None, Some(a), None], Some(b));
    assert [None, Some(a), None] + [Some(b)] == [None, Some(a), None, Some(b)];
    ReportsAppend([None, Some(a), None, Some(b)], None);
    assert [None, Some(a), None, Some(b)] + [None] == [None, Some(a), None, Some(b), None];
  }

  lemma ReportsOfLossy(a: ConnectionId, b: ConnectionId)
    ensures Reports([Some(a), Some(b), None]) == [Opened(a), Closed(b)]
  {
    hide Reports;
    ReportsOfOne(Some(a));
    ReportsAppend([Some(a)], Some(b));
    assert [Some(a)] + [Some(b)] == [Some(a), Some(b)];
    ReportsAppend([Some(a), Some(b)], None);
    assert [Some(a), Some(b)] + [None] == [Some(a), Some(b), None];
  }

  lemma ReportsOfOne(v: Option<ConnectionId>)
    ensures Reports([v]) == if v.Some? then [Opened(v.value)] else []
  {
    assert Front([v]) == [];
  }

  // ---------------------------------------------------------------- one call of poll_ready

  function After(r: Run, turns: nat -> Turn, k: nat): Run {
    if k == 0 then r else Step(After(r, turns, k - 1), turns(k - 1))
  }

  /** The first `k` iterations all continue the loop. */
  predicate LoopingAt(r: Run, turns: nat -> Turn, k: nat) {
    k == 0 || (LoopingAt(r, turns, k - 1) && !Returns(Last(After(r, turns, k).trace)))
  }

  /** How many iterations a call can still make, counted from the state before its `k`-th. */
  function Rank(state: State, k: nat): nat {
    match state
    case Retry(_) => if k == 0 then 6 else 1
    case Idle => 5
    case Connecting => 4
    case Initializing => 3
    case Connected => 2
  }

  /** A back-off begun inside the call is still pending when the same call polls it. */
  ghost predicate FreshSleepsPend(r: Run, turns: nat -> Turn) {
    forall k: nat {:trigger turns(k)} :: 0 < k && LoopingAt(r, turns, k) && After(r, turns, k).conn.state.Retry? ==>
      turns(k).outcome.Pending?
  }

  /** The call ends with its `n`-th iteration. */
  ghost predicate EndsAt(r: Run, turns: nat -> Turn, n: nat) {
    0 < n && LoopingAt(r, turns, n - 1) && Returns(Last(After(r, turns, n).trace))
  }

  lemma RankOfMove(c: Conn, outcome: Outcome, id: ConnectionId, k: nat)
    requires c.state.Retry? && k > 0 ==> outcome.Pending?
    ensures var Move(c', l) := Act(c, outcome, id);
            !Returns(l) ==> Rank(c'.state, k + 1) < Rank(c.state, k)
  {
  }

  lemma {:induction false} RankFalls(r: Run, turns: nat -> Turn, k: nat)
    requires FreshSleepsPend(r, turns)
    requires LoopingAt(r, turns, k)
    ensures Rank(After(r, turns, k).conn.state, k) + k <= 6
  {
    if k > 0 {
      RankFalls(r, turns, k - 1);
      hide Act, Rank;
      var before, t := After(r, turns, k - 1), turns(k - 1);
      RankOfMove(Lowered(before.conn, t.lowerBefore), t.outcome, t.id, k - 1);
    }
  }

  lemma LoopsAtMostFive(r: Run, turns: nat -> Turn, k: nat)
    requires FreshSleepsPend(r, turns)
    requires LoopingAt(r, turns, k)
    ensures k <= 5
  {
    RankFalls(r, turns, k);
  }

  /** One call makes at most six iterations. */
  lemma {:induction false} PollReadyEnds(r: Run, turns: nat -> Turn, k: nat)
    requires FreshSleepsPend(r, turns)
    requires LoopingAt(r, turns, k)
    ensures exists n :: n <= 6 && EndsAt(r, turns, n)
    decreases 6 - k
  {
    LoopsAtMostFive(r, turns, k);
    hide After, Returns, FreshSleepsPend;
    if LoopingAt(r, turns, k + 1) {
      PollReadyEnds(r, turns, k + 1);
    } else {
      assert EndsAt(r, turns, k + 1);
    }
  }
}
