/** The polling loop that refreshes a subscribed service.

    Clock times and counters are 64-bit in the client: casts to unsigned and left shifts keep the
    low 64 bits, written out here. */
module Updater {
  import opened Wrappers
  import opened Arithmetic
  import opened ServiceInfos

  const U64: nat := 0x1_0000_0000_0000_0000

  const DEFAULT_DELAY: nat := 1000

  const DEFAULT_UPDATE_CACHE_TIME_MULTIPLE := 6

  const MAX_FAILED: nat := 6

  /** `as u64` of a signed 64-bit number, and what a wrapping multiplication leaves. */
  function AsU64(x: int): (r: nat)
    ensures r < U64
    ensures 0 <= x < U64 ==> r == x
    ensures (x - r) % U64 == 0
  {
    x % U64
  }

  datatype Polling = Polling(delayTime: nat, lastRefreshTime: nat, failedCount: nat)

  const START := Polling(DEFAULT_DELAY, U64 - 1, 0)

  /** The shift drops what leaves the 64 bits; the cap is one minute. */
  function SleepMillis(p: Polling): nat {
    Min((p.delayTime * PowerOfTwo(p.failedCount)) % U64, DEFAULT_DELAY * 60)
  }

  datatype Reply = SendError | Rejected | Answer(info: ServiceInfo)

  /** What the loop meets in one round: the running flag before and after the sleep, the timestamp
      of the cached snapshot if there is one, and the server's reply if it is asked. */
  datatype Turn = Turn(running: bool, stillRunning: bool, cached: Option<int>, reply: Reply)

  datatype Did = Skipped | QueryFailed | Refreshed

  function DidWhat(p: Polling, t: Turn): Did {
    if t.cached.Some? && p.lastRefreshTime < AsU64(t.cached.value) then Skipped
    else if t.reply.Answer? then Refreshed
    else QueryFailed
  }

  function Next(p: Polling, t: Turn): Polling {
    match DidWhat(p, t)
    case Skipped => p.(lastRefreshTime := AsU64(t.cached.value))
    case QueryFailed => p.(failedCount := if p.failedCount < MAX_FAILED then p.failedCount + 1 else p.failedCount)
    case Refreshed =>
      Polling(AsU64(t.reply.info.cacheMillis * DEFAULT_UPDATE_CACHE_TIME_MULTIPLE),
              AsU64(t.reply.info.lastRefTime),
              0)
  }

  /** The state in which the loop meets the turn after the given ones. */
  function After(turns: seq<Turn>): Polling {
    if turns == [] then START else Next(After(turns[..|turns| - 1]), turns[|turns| - 1])
  }

  function DidAt(turns: seq<Turn>, i: nat): Did
    requires i < |turns|
  {
    DidWhat(After(turns[..i]), turns[i])
  }

  /** The snapshots handed to the emitter. */
  function Emitted(turns: seq<Turn>): seq<ServiceInfo> {
    if turns == [] then []
    else
      Emitted(turns[..|turns| - 1])
      + if DidAt(turns, |turns| - 1) == Refreshed then [turns[|turns| - 1].reply.info] else []
  }

  // ---------------------------------------------------------------- the failure count and the sleeps

  /** Queries that failed since the last one that succeeded; skipped rounds do not count. */
  function FailuresSinceSuccess(turns: seq<Turn>): nat {
    if turns == [] then 0
    else
      var before := FailuresSinceSuccess(turns[..|turns| - 1]);
      match DidAt(turns, |turns| - 1)
      case Skipped => before
      case QueryFailed => before + 1
      case Refreshed => 0
  }

  /** The delay the last successful query asked for, before any shift. */
  function BaseDelay(turns: seq<Turn>): int {
    if turns == [] then DEFAULT_DELAY
    else if DidAt(turns, |turns| - 1) == Refreshed then
      turns[|turns| - 1].reply.info.cacheMillis * DEFAULT_UPDATE_CACHE_TIME_MULTIPLE
    else
      BaseDelay(turns[..|turns| - 1])
  }

  lemma {:induction false} PollingState(turns: seq<Turn>)
    ensures After(turns).failedCount == Min(FailuresSinceSuccess(turns), MAX_FAILED)
    ensures After(turns).delayTime == AsU64(BaseDelay(turns))
  {
    if turns != [] {
      var n := |turns| - 1;
      PollingState(turns[..n]);
      assert turns[..n] == turns[..|turns| - 1];
    }
  }

  /** In every run the failure count is the current streak of failed queries, at most 6, and while
      the cache times the server asks for are not negative and leave room for the shift, each sleep
      is the doubled base delay capped at a minute. */
  lemma SleepIsCappedBackOff(turns: seq<Turn>)
    ensures After(turns).failedCount == Min(FailuresSinceSuccess(turns), 6)
    ensures 0 <= BaseDelay(turns) && BaseDelay(turns) * PowerOfTwo(After(turns).failedCount) < U64 ==>
              SleepMillis(After(turns)) == Min(BaseDelay(turns) * PowerOfTwo(After(turns).failedCount), 60000)
  {
    PollingState(turns);
    SleepIsCappedBackOffIff(turns);
    hide PowerOfTwo, FailuresSinceSuccess, After, SleepMillis;
  }

  /** A multiplication of reduced factors keeps the same low 64 bits. */
  lemma LowBitsOfProduct(a: int, power: nat)
    ensures (AsU64(a) * power) % U64 == AsU64(a * power)
  {
    var q, r := a / U64, a % U64;
    assert a * power == U64 * (q * power) + r * power by {
      assert a == U64 * q + r;
      Distributes(U64 * q, r, power);
    }
    MultipleDropsOut(q * power, r * power);
  }

  lemma Distributes(a: int, b: int, c: int)
    ensures (a + b) * c == a * c + b * c
  {
  }

  lemma MultipleDropsOut(k: int, x: int)
    ensures (U64 * k + x) % U64 == x % U64
  {
  }

  /** The back-off the last successful query and the failures since call for, before any cap. */
  function BackOff(turns: seq<Turn>): int {
    BaseDelay(turns) * PowerOfTwo(Min(FailuresSinceSuccess(turns), MAX_FAILED))
  }

  /** In every run, whatever the server asked for, the sleep is what 64 bits keep of the back-off,
      capped. Unless a negative cache time makes the back-off negative, that is the capped back-off
      exactly when the back-off fits the 64 bits or what they keep still reaches the cap. */
  lemma SleepIsCappedBackOffIff(turns: seq<Turn>)
    ensures SleepMillis(After(turns)) == Min(AsU64(BackOff(turns)), 60000)
    ensures 0 <= BackOff(turns) ==>
              (SleepMillis(After(turns)) == Min(BackOff(turns), 60000) <==>
               BackOff(turns) < U64 || BackOff(turns) % U64 >= 60000)
  {
    PollingState(turns);
    hide PowerOfTwo, FailuresSinceSuccess, After;
    LowBitsOfProduct(BaseDelay(turns), PowerOfTwo(Min(FailuresSinceSuccess(turns), MAX_FAILED)));
  }

  /** An answer with a cache time of 2^57 ms, and then the given number of failed queries. */
  function AnsweredThenFailing(info: ServiceInfo, failures: nat): seq<Turn> {
    if failures == 0 then [Turn(true, true, None, Answer(info))]
    else AnsweredThenFailing(info, failures - 1) + [Turn(true, true, None, SendError)]
  }

  lemma {:induction false} AfterFailing(info: ServiceInfo, failures: nat)
    ensures var turns := AnsweredThenFailing(info, failures);
            && turns != []
            && BaseDelay(turns) == info.cacheMillis * DEFAULT_UPDATE_CACHE_TIME_MULTIPLE
            && FailuresSinceSuccess(turns) == failures
  {
    var turns := AnsweredThenFailing(info, failures);
    if failures > 0 {
      AfterFailing(info, failures - 1);
      assert turns[..|turns| - 1] == AnsweredThenFailing(info, failures - 1);
    }
    assert DidAt(turns, |turns| - 1) == if failures == 0 then Refreshed else QueryFailed;
  }

  /** A cache time of 2^57 ms shifts out of the 64 bits after six failures: the loop does not sleep. */
  lemma HugeCacheTimeStopsSleeping(info: ServiceInfo)
    requires info.cacheMillis == 0x200_0000_0000_0000
    ensures SleepMillis(After(AnsweredThenFailing(info, 6))) == 0
    ensures BackOff(AnsweredThenFailing(info, 6)) == 3 * U64
  {
    AfterFailing(info, 6);
    SleepIsCappedBackOffIff(AnsweredThenFailing(info, 6));
    assert PowerOfTwo(3) == 8;
    assert PowerOfTwo(6) == 64;
  }

  // ---------------------------------------------------------------- skipped rounds

  /** Until a query has succeeded no round is skipped. */
  lemma {:induction false} NoSkipBeforeSuccess(turns: seq<Turn>)
    requires forall i :: 0 <= i < |turns| ==> DidAt(turns, i) != Refreshed
    ensures forall i :: 0 <= i < |turns| ==> DidAt(turns, i) == QueryFailed
    ensures After(turns).lastRefreshTime == U64 - 1
  {
    if turns != [] {
      var n := |turns| - 1;
      var front := turns[..n];
      forall i | 0 <= i < n ensures DidAt(turns, i) == DidAt(front, i) {
        assert turns[..i] == front[..i];
      }
      NoSkipBeforeSuccess(front);
      assert DidAt(turns, n) == QueryFailed;
    }
  }

  /** A skip happens exactly on a cached snapshot newer than all the loop has taken note of, and
      takes note of it. */
  lemma SkipRaisesTime(turns: seq<Turn>, i: nat)
    requires i < |turns|
    ensures DidAt(turns, i) == Skipped <==>
            turns[i].cached.Some? && After(turns[..i]).lastRefreshTime < AsU64(turns[i].cached.value)
    ensures DidAt(turns, i) == Skipped ==>
              && After(turns[..i]).lastRefreshTime < After(turns[..i + 1]).lastRefreshTime
              && After(turns[..i + 1]).lastRefreshTime == AsU64(turns[i].cached.value)
    ensures DidAt(turns, i) == QueryFailed ==>
              After(turns[..i + 1]).lastRefreshTime == After(turns[..i]).lastRefreshTime
  {
    assert turns[..i + 1][..i] == turns[..i];
  }

  /** Between two skips with no successful query between them, the cached snapshot has become
      strictly newer. */
  lemma {:induction false} SkipsNeedNewerSnapshots(turns: seq<Turn>, i: nat, j: nat)
    requires i < j < |turns|
    requires DidAt(turns, i) == Skipped && DidAt(turns, j) == Skipped
    requires forall k :: i < k < j ==> DidAt(turns, k) != Refreshed
    ensures turns[i].cached.Some? && turns[j].cached.Some?
    ensures AsU64(turns[i].cached.value) < AsU64(turns[j].cached.value)
  {
    SkipRaisesTime(turns, i);
    SkipRaisesTime(turns, j);
    TimeHolds(turns, i + 1, j);
  }

  lemma {:induction false} TimeHolds(turns: seq<Turn>, i: nat, j: nat)
    requires i <= j <= |turns|
    requires forall k :: i <= k < j ==> DidAt(turns, k) != Refreshed
    ensures After(turns[..i]).lastRefreshTime <= After(turns[..j]).lastRefreshTime
  {
    if i < j {
      TimeHolds(turns, i, j - 1);
      SkipRaisesTime(turns, j - 1);
    }
  }

  // ---------------------------------------------------------------- answered rounds

  /** What a round is, over every run: skipped when the cache holds a newer snapshot, and otherwise a
      refresh exactly when the server answers. A refresh takes over the answer's two times and forgets
      the failures; a failure leaves both times. */
  lemma RoundIs(turns: seq<Turn>, i: nat)
    requires i < |turns|
    ensures var before, after := After(turns[..i]), After(turns[..i + 1]);
            var t := turns[i];
            && (DidAt(turns, i) == Skipped <==>
                  t.cached.Some? && before.lastRefreshTime < AsU64(t.cached.value))
            && (DidAt(turns, i) != Skipped ==> (DidAt(turns, i) == Refreshed <==> t.reply.Answer?))
            && (DidAt(turns, i) == Refreshed ==>
                  after == Polling(AsU64(6 * t.reply.info.cacheMillis), AsU64(t.reply.info.lastRefTime), 0))
            && (DidAt(turns, i) == QueryFailed ==>
                  && after.delayTime == before.delayTime
                  && after.lastRefreshTime == before.lastRefreshTime
                  && after.failedCount == if before.failedCount < 6 then before.failedCount + 1
                                          else before.failedCount)
            && (DidAt(turns, i) == Skipped ==>
                  after == before.(lastRefreshTime := AsU64(t.cached.value)))
  {
    hide AsU64;
    assert turns[..i + 1][..i] == turns[..i];
    if turns[i].reply.Answer? {
      assert turns[i].reply.info.cacheMillis * 6 == 6 * turns[i].reply.info.cacheMillis;
    }
  }

  /** The answers among the replies of the rounds that were not skipped, in order. */
  function AnswersTo(turns: seq<Turn>, did: seq<Did>): seq<ServiceInfo>
    requires |did| <= |turns|
  {
    if did == [] then []
    else
      var last := |did| - 1;
      AnswersTo(turns, did[..last])
      + if did[last] != Skipped && turns[last].reply.Answer? then [turns[last].reply.info] else []
  }

  lemma {:induction false} EmittedAreAnswers(turns: seq<Turn>, did: seq<Did>)
    requires |did| <= |turns|
    requires forall i :: 0 <= i < |did| ==> did[i] == DidAt(turns, i)
    ensures Emitted(turns[..|did|]) == AnswersTo(turns, did)
  {
    hide DidAt, After;
    if did != [] {
      var last := |did| - 1;
      EmittedAreAnswers(turns, did[..last]);
      OneMoreTurn(turns, last);
      RoundIs(turns, last);
      assert turns[..last + 1] == turns[..|did|];
    }
  }

  // ---------------------------------------------------------------- the loop

  /** The loop over the turns it meets. `rounds` is how many it completes; the sleeps, what each
      round did, and the snapshots handed to the emitter are what it leaves behind. */
  method Run(turns: seq<Turn>) returns (rounds: nat, sleeps: seq<nat>, did: seq<Did>, emitted: seq<ServiceInfo>)
    ensures rounds <= |turns|
    ensures forall i :: 0 <= i < rounds ==> turns[i].running && turns[i].stillRunning
    ensures rounds < |turns| ==> !turns[rounds].running || !turns[rounds].stillRunning
    ensures |did| == rounds && forall i :: 0 <= i < rounds ==> did[i] == DidAt(turns, i)
    ensures |sleeps| == rounds + if rounds < |turns| && turns[rounds].running then 1 else 0
    ensures forall i :: 0 <= i < |sleeps| ==> sleeps[i] == SleepMillis(After(turns[..i]))
    ensures emitted == Emitted(turns[..rounds]) == AnswersTo(turns, did)
  {
    var delayTime: nat := DEFAULT_DELAY;
    var lastRefreshTime: nat := U64 - 1;
    var failedCount: nat := 0;
    rounds, sleeps, did, emitted := 0, [], [], [];
    ghost var slept := false;
    while rounds < |turns| && turns[rounds].running
      invariant !slept
      invariant LoopAt(turns, rounds, slept, Polling(delayTime, lastRefreshTime, failedCount), sleeps, did, emitted)
    {
      hide *;
      ghost var before := Polling(delayTime, lastRefreshTime, failedCount);
      var turn := turns[rounds];
      SleepsFor(turns, rounds, before, sleeps, did, emitted);
      sleeps := sleeps + [Min((delayTime * PowerOfTwo(failedCount)) % U64, DEFAULT_DELAY * 60)];
      if !turn.stillRunning {
        slept := true;
        break;
      }
      RoundCompletes(turns, rounds, before, sleeps, did, emitted);
      rounds := rounds + 1;
      var what;
      what, delayTime, lastRefreshTime, failedCount := Round(turn, delayTime, lastRefreshTime, failedCount);
      did := did + [what];
      if what == Refreshed {
        emitted := emitted + [turn.reply.info];
      }
    }
    EmittedAreAnswers(turns, did);
    assert turns[..|did|] == turns[..rounds];
  }

  /** What follows a sleep: the cached timestamp decides whether the server is asked. */
  method Round(turn: Turn, delayTime: nat, lastRefreshTime: nat, failedCount: nat)
    returns (did: Did, delay: nat, last: nat, failed: nat)
    ensures Polling(delay, last, failed) == Next(Polling(delayTime, lastRefreshTime, failedCount), turn)
    ensures did == DidWhat(Polling(delayTime, lastRefreshTime, failedCount), turn)
    ensures did == Refreshed ==> turn.reply.Answer?
  {
    hide AsU64;
    delay, last, failed := delayTime, lastRefreshTime, failedCount;
    var needQuery := true;
    if turn.cached.Some? {
      var isOutdated := lastRefreshTime >= AsU64(turn.cached.value);
      if !isOutdated {
        needQuery := false;
        last := AsU64(turn.cached.value);
      }
    }
    if !needQuery {
      return Skipped, delay, last, failed;
    }
    if !turn.reply.Answer? {
      if failed < MAX_FAILED {
        failed := failed + 1;
      }
      return QueryFailed, delay, last, failed;
    }
    last := AsU64(turn.reply.info.lastRefTime);
    delay := AsU64(turn.reply.info.cacheMillis * DEFAULT_UPDATE_CACHE_TIME_MULTIPLE);
    return Refreshed, delay, last, 0;
  }

  /** The loop after `rounds` rounds, before or after the sleep of the next. */
  ghost predicate LoopAt(
      turns: seq<Turn>, rounds: nat, slept: bool, p: Polling,
      sleeps: seq<nat>, did: seq<Did>, emitted: seq<ServiceInfo>)
  {
    && rounds <= |turns|
    && (slept ==> rounds < |turns| && turns[rounds].running)
    && (forall i :: 0 <= i < rounds ==> turns[i].running && turns[i].stillRunning)
    && After(turns[..rounds]) == p
    && |did| == rounds && (forall i :: 0 <= i < rounds ==> did[i] == DidAt(turns, i))
    && |sleeps| == rounds + (if slept then 1 else 0)
    && (forall i :: 0 <= i < |sleeps| ==> sleeps[i] == SleepMillis(After(turns[..i])))
    && emitted == Emitted(turns[..rounds])
  }

  lemma SleepsFor(
      turns: seq<Turn>, rounds: nat, p: Polling, sleeps: seq<nat>, did: seq<Did>, emitted: seq<ServiceInfo>)
    requires LoopAt(turns, rounds, false, p, sleeps, did, emitted)
    requires rounds < |turns| && turns[rounds].running
    ensures var millis := Min((p.delayTime * PowerOfTwo(p.failedCount)) % U64, DEFAULT_DELAY * 60);
            LoopAt(turns, rounds, true, p, sleeps + [millis], did, emitted)
  {
    hide After, DidAt, Emitted, PowerOfTwo, Min;
  }

  lemma RoundCompletes(
      turns: seq<Turn>, rounds: nat, p: Polling, sleeps: seq<nat>, did: seq<Did>, emitted: seq<ServiceInfo>)
    requires LoopAt(turns, rounds, true, p, sleeps, did, emitted)
    requires rounds < |turns| && turns[rounds].stillRunning
    ensures var what := DidWhat(p, turns[rounds]);
            && (what == Refreshed ==> turns[rounds].reply.Answer?)
            && LoopAt(turns, rounds + 1, false, Next(p, turns[rounds]), sleeps, did + [what],
                      if what == Refreshed then emitted + [turns[rounds].reply.info] else emitted)
  {
    OneMoreTurn(turns, rounds);
    hide After, DidAt, Emitted, SleepMillis, DidWhat, Next;
  }

  lemma OneMoreTurn(turns: seq<Turn>, n: nat)
    requires n < |turns|
    ensures After(turns[..n + 1]) == Next(After(turns[..n]), turns[n])
    ensures DidAt(turns, n) == DidWhat(After(turns[..n]), turns[n])
    ensures DidAt(turns, n) == Refreshed ==> turns[n].reply.Answer?
    ensures Emitted(turns[..n + 1]) ==
            if DidAt(turns, n) == Refreshed then Emitted(turns[..n]) + [turns[n].reply.info] else Emitted(turns[..n])
  {
    assert turns[..n + 1][..n] == turns[..n];
  }
}
