/**
 * The AI requests-per-minute limiter: one shared deque of admitted timestamps, a
 * budget that may be changed at any time, and a caller that sleeps and retries.
 */
module RpmLimiter {
  import opened SlidingWindow

  const MINUTE := 60.0
  const SLACK := 0.05

  datatype State = State(rpm: int, stamps: seq<real>)

  /** `IndexError`: the code reads the oldest timestamp of an empty deque. */
  datatype Reply = Granted | Wait(seconds: real) | IndexError

  datatype Event =
    | Acquire(tokens: int, now: real)
    | UpdateRpm(rpm: int)
    | Stats(now: real)

  /** `tokens` copies of the moment; a non-positive count adds none. */
  function Copies(now: real, tokens: int): seq<real>
    decreases tokens
  {
    if tokens <= 0 then [] else Copies(now, tokens - 1) + [now]
  }

  function AcquireStep(s: State, tokens: int, now: real): (State, Reply) {
    var live := Pruned(s.stamps, now, MINUTE);
    if |live| + tokens <= s.rpm then (State(s.rpm, live + Copies(now, tokens)), Granted)
    else if live == [] then (State(s.rpm, live), IndexError)
    else (State(s.rpm, live), Wait(MINUTE - (now - live[0]) + SLACK))
  }

  function Step(s: State, e: Event): State {
    match e
    case Acquire(tokens, now) => AcquireStep(s, tokens, now).0
    case UpdateRpm(rpm) => s.(rpm := rpm)
    case Stats(now) => s.(stamps := Pruned(s.stamps, now, MINUTE))
  }

  // ----- runs -----------------------------------------------------------------

  function After(rpm: int, events: seq<Event>): State {
    if events == [] then State(rpm, [])
    else Step(After(rpm, events[..|events| - 1]), events[|events| - 1])
  }

  /** The budget in force: the last one set. */
  function RpmInForce(rpm: int, events: seq<Event>): int {
    if events == [] then rpm
    else if events[|events| - 1].UpdateRpm? then events[|events| - 1].rpm
    else RpmInForce(rpm, events[..|events| - 1])
  }

  function Clock(t0: real, events: seq<Event>): real {
    if events == [] then t0
    else if events[|events| - 1].UpdateRpm? then Clock(t0, events[..|events| - 1])
    else events[|events| - 1].now
  }

  ghost predicate Clocked(t0: real, events: seq<Event>) {
    events != [] ==>
      var before := events[..|events| - 1];
      Clocked(t0, before) && Clock(t0, before) <= Clock(t0, events)
  }

  // ----- the reference: nothing is forgotten --------------------------------------

  /** What `acquire` should answer, counting in the log of everything ever admitted. */
  function NaiveReply(all: seq<real>, rpm: int, tokens: int, now: real): Reply {
    var live := Within(all, now - MINUTE, now);
    if |live| + tokens <= rpm then Granted
    else if live == [] then IndexError
    else Wait(MINUTE - (now - live[0]) + SLACK)
  }

  function Admitted(rpm: int, events: seq<Event>): seq<real> {
    if events == [] then []
    else
      var before, e := events[..|events| - 1], events[|events| - 1];
      var all := Admitted(rpm, before);
      if e.Acquire? && NaiveReply(all, RpmInForce(rpm, before), e.tokens, e.now).Granted?
      then all + Copies(e.now, e.tokens) else all
  }

  function Repeated(limit: int, tokens: int): seq<int>
    decreases tokens
  {
    if tokens <= 0 then [] else Repeated(limit, tokens - 1) + [limit]
  }

  /** For every admitted token, the budget in force when it was admitted. */
  function Limits(rpm: int, events: seq<Event>): seq<int> {
    if events == [] then []
    else
      var before, e := events[..|events| - 1], events[|events| - 1];
      var all := Admitted(rpm, before);
      var limits := Limits(rpm, before);
      if e.Acquire? && NaiveReply(all, RpmInForce(rpm, before), e.tokens, e.now).Granted?
      then limits + Repeated(RpmInForce(rpm, before), e.tokens) else limits
  }

  // ----- refinement ---------------------------------------------------------------

  lemma {:induction false} CoversCopies(all: seq<real>, kept: seq<real>, now: real, tokens: int)
    requires Covers(all, kept, now, MINUTE) && Ascending(all) && NoneAfter(all, now)
    ensures var more := Copies(now, tokens);
            && Covers(all + more, kept + more, now, MINUTE)
            && Ascending(all + more) && NoneAfter(all + more, now)
    decreases tokens
  {
    if tokens > 0 {
      CoversCopies(all, kept, now, tokens - 1);
      var more := Copies(now, tokens - 1);
      CoversAppend(all + more, kept + more, now, MINUTE, now);
      AscendingAppend(all + more, now, now);
      assert all + more + [now] == all + Copies(now, tokens);
      assert kept + more + [now] == kept + Copies(now, tokens);
    } else {
      assert all + [] == all && kept + [] == kept;
    }
  }

  /** A state stands for the log of everything admitted. */
  ghost predicate Represents(s: State, all: seq<real>, clock: real) {
    Ascending(all) && NoneAfter(all, clock) && Covers(all, s.stamps, clock, MINUTE)
  }

  lemma AcquireRepresents(s: State, all: seq<real>, clock: real, tokens: int, now: real)
    requires Represents(s, all, clock) && clock <= now
    ensures var (s', reply) := AcquireStep(s, tokens, now);
            && reply == NaiveReply(all, s.rpm, tokens, now)
            && Represents(s', if reply.Granted? then all + Copies(now, tokens) else all, now)
  {
    PrunedIsWithin(all, s.stamps, clock, now, MINUTE);
    CoversPruned(all, s.stamps, clock, now, MINUTE);
    NoneAfterLater(all, clock, now);
    CoversCopies(all, Pruned(s.stamps, now, MINUTE), now, tokens);
  }

  lemma {:induction false} AfterRepresents(t0: real, rpm: int, events: seq<Event>)
    requires Clocked(t0, events)
    ensures After(rpm, events).rpm == RpmInForce(rpm, events)
    ensures Represents(After(rpm, events), Admitted(rpm, events), Clock(t0, events))
  {
    if events != [] {
      var before, e := events[..|events| - 1], events[|events| - 1];
      AfterRepresents(t0, rpm, before);
      var s, all, clock := After(rpm, before), Admitted(rpm, before), Clock(t0, before);
      match e
      case Acquire(tokens, now) => AcquireRepresents(s, all, clock, tokens, now);
      case UpdateRpm(_) =>
      case Stats(now) =>
        CoversPruned(all, s.stamps, clock, now, MINUTE);
        NoneAfterLater(all, clock, now);
    }
  }

  /** On every run, a call answers exactly what the full log says, wait time and error included. */
  lemma RepliesAreNaive(t0: real, rpm: int, events: seq<Event>, tokens: int, now: real)
    requires Clocked(t0, events) && Clock(t0, events) <= now
    ensures AcquireStep(After(rpm, events), tokens, now).1
         == NaiveReply(Admitted(rpm, events), RpmInForce(rpm, events), tokens, now)
  {
    AfterRepresents(t0, rpm, events);
    AcquireRepresents(After(rpm, events), Admitted(rpm, events), Clock(t0, events), tokens, now);
  }

  /** Statistics count the tokens of the last minute and forget none of them. */
  lemma StatsCountTheMinute(t0: real, rpm: int, events: seq<Event>, now: real)
    requires Clocked(t0, events) && Clock(t0, events) <= now
    ensures After(rpm, events + [Stats(now)]).stamps == Within(Admitted(rpm, events), now - 60.0, now)
  {
    AfterRepresents(t0, rpm, events);
    PrunedIsWithin(Admitted(rpm, events), After(rpm, events).stamps, Clock(t0, events), now, MINUTE);
    assert (events + [Stats(now)])[..|events|] == events;
  }

  // ----- no window is ever overfull --------------------------------------------------

  lemma {:induction false} CopiesCount(all: seq<real>, now: real, tokens: int)
    ensures |Copies(now, tokens)| == if tokens <= 0 then 0 else tokens
    ensures |Within(all + Copies(now, tokens), now - MINUTE, now)|
         == |Within(all, now - MINUTE, now)| + |Copies(now, tokens)|
    decreases tokens
  {
    hide Within;
    if tokens <= 0 {
      assert all + [] == all;
    } else {
      CopiesCount(all, now, tokens - 1);
      WithinConcat(all + Copies(now, tokens - 1), [now], now - MINUTE, now);
      WithinAll([now], now - MINUTE, now);
      assert all + Copies(now, tokens - 1) + [now] == all + Copies(now, tokens);
    }
  }

  lemma OneMoreCopy(all: seq<real>, limits: seq<int>, more: seq<real>, same: seq<int>, now: real, rpm: int)
    requires AdmittedUnder(all + more, limits + same, MINUTE)
    requires |Within(all + more, now - MINUTE, now)| < rpm
    ensures AdmittedUnder(all + (more + [now]), limits + (same + [rpm]), MINUTE)
  {
    assert all + more + [now] == all + (more + [now]);
    assert limits + same + [rpm] == limits + (same + [rpm]);
    AdmittedAppend(all + more, limits + same, MINUTE, now, rpm);
  }

  lemma {:induction false} CopiesAreBudgeted(all: seq<real>, limits: seq<int>, now: real, tokens: int, rpm: int)
    requires AdmittedUnder(all, limits, MINUTE)
    requires tokens > 0 ==> |Within(all, now - MINUTE, now)| + tokens <= rpm
    ensures AdmittedUnder(all + Copies(now, tokens), limits + Repeated(rpm, tokens), MINUTE)
    decreases tokens
  {
    if tokens <= 0 {
      assert all + [] == all && limits + [] == limits;
    } else {
      CopiesAreBudgeted(all, limits, now, tokens - 1, rpm);
      CopiesCount(all, now, tokens - 1);
      OneMoreCopy(all, limits, Copies(now, tokens - 1), Repeated(rpm, tokens - 1), now, rpm);
    }
  }

  lemma {:induction false} AdmissionsAreBudgeted(t0: real, rpm: int, events: seq<Event>)
    requires Clocked(t0, events)
    ensures AdmittedUnder(Admitted(rpm, events), Limits(rpm, events), MINUTE)
  {
    if events != [] {
      var before, e := events[..|events| - 1], events[|events| - 1];
      AdmissionsAreBudgeted(t0, rpm, before);
      if e.Acquire? && NaiveReply(Admitted(rpm, before), RpmInForce(rpm, before), e.tokens, e.now).Granted? {
        CopiesAreBudgeted(Admitted(rpm, before), Limits(rpm, before), e.now, e.tokens, RpmInForce(rpm, before));
      }
    }
  }

  /**
   * In any closed interval of at most 60 s, the limiter admits no more tokens
   * than the budget that was in force at the last admission of the interval.
   */
  lemma NeverExceedsRpm(t0: real, rpm: int, events: seq<Event>, from: real, to: real)
    requires Clocked(t0, events) && to - from <= 60.0
    ensures var all, limits := Admitted(rpm, events), Limits(rpm, events);
            var last := LastWithin(all, from, to);
            && |limits| == |all|
            && |Within(all, from, to)| <= if last < 0 then 0 else limits[last]
  {
    AfterRepresents(t0, rpm, events);
    AdmissionsAreBudgeted(t0, rpm, events);
    WindowBound(Admitted(rpm, events), Limits(rpm, events), MINUTE, from, to);
  }

  // ----- the waiting loop ----------------------------------------------------------

  /** How much later than asked a sleep may end. */
  type Lateness = x: real | x >= 0.0 witness 0.0

  /** After the advertised wait the oldest timestamp is gone from the deque. */
  lemma SleepExpiresOldest(s: State, tokens: int, now: real, late: Lateness)
    requires AcquireStep(s, tokens, now).1.Wait?
    ensures var (s', reply) := AcquireStep(s, tokens, now);
            var again := now + reply.seconds + late;
            && s'.stamps != [] && reply.seconds == 60.05 - (now - s'.stamps[0]) && reply.seconds > 0.0
            && |s'.stamps| <= |s.stamps|
            && |Pruned(s'.stamps, again, MINUTE)| < |s'.stamps|
  {
    PrunedHead(s.stamps, now, MINUTE);
    var live := Pruned(s.stamps, now, MINUTE);
    PrunedHead(live[1..], now + AcquireStep(s, tokens, now).1.seconds + late, MINUTE);
  }

  class TokenBucketRateLimiter {
    var rpm: int
    var stamps: seq<real>
    var totalRequests: nat
    var throttledCount: nat

    constructor (rpm: int)
      ensures View() == State(rpm, []) && totalRequests == throttledCount == 0
    {
      this.rpm, stamps, totalRequests, throttledCount := rpm, [], 0, 0;
    }

    function View(): State
      reads this
    {
      State(rpm, stamps)
    }

    method UpdateRpm(rpm: int)
      modifies this`rpm
      ensures View() == old(View()).(rpm := rpm)
    {
      this.rpm := rpm;
    }

    method PopExpired(now: real)
      modifies this`stamps
      ensures stamps == Pruned(old(stamps), now, MINUTE)
    {
      while stamps != [] && now - stamps[0] > MINUTE
        invariant Pruned(stamps, now, MINUTE) == Pruned(old(stamps), now, MINUTE)
        decreases |stamps|
      {
        stamps := stamps[1..];
      }
    }

    method Acquire(tokens: int, now: real) returns (reply: Reply)
      modifies this`stamps, this`totalRequests, this`throttledCount
      ensures (View(), reply) == AcquireStep(old(View()), tokens, now)
      ensures totalRequests == old(totalRequests) + if reply.Granted? then 1 else 0
      ensures throttledCount == old(throttledCount) + if reply.Wait? then 1 else 0
    {
      PopExpired(now);
      if |stamps| + tokens <= rpm {
        var n := 0;
        ghost var live := stamps;
        while n < tokens
          invariant 0 <= n && (n <= tokens || n == 0)
          invariant stamps == live + Copies(now, n)
          invariant totalRequests == old(totalRequests) && throttledCount == old(throttledCount)
        {
          stamps := stamps + [now];
          n := n + 1;
        }
        assert Copies(now, n) == Copies(now, tokens);
        totalRequests := totalRequests + 1;
        return Granted;
      }
      if stamps == [] {
        return IndexError;
      }
      throttledCount := throttledCount + 1;
      return Wait(MINUTE - (now - stamps[0]) + SLACK);
    }

    method Stats(now: real) returns (usedInWindow: nat, remaining: nat)
      modifies this`stamps
      ensures View() == Step(old(View()), Event.Stats(now))
      ensures usedInWindow == |stamps|
      ensures remaining == if rpm > |stamps| then rpm - |stamps| else 0
    {
      PopExpired(now);
      usedInWindow := |stamps|;
      remaining := if rpm > |stamps| then rpm - |stamps| else 0;
    }

    /**
     * Retry until granted. With nobody competing and no budget change the loop
     * ends however late the sleeps are: it sleeps at most once per stored
     * timestamp, and it fails only for a request above the whole budget.
     */
    method WaitAndAcquire(tokens: int, start: real, late: nat -> Lateness)
      returns (raised: bool, now: real, sleeps: nat)
      modifies this`stamps, this`totalRequests, this`throttledCount
      ensures raised <==> tokens > rpm
      ensures totalRequests == old(totalRequests) + if raised then 0 else 1
      ensures !raised ==> |stamps| >= tokens && (tokens > 0 ==> |stamps| <= rpm)
      ensures !raised ==> forall i :: 0 <= i && |stamps| - tokens <= i < |stamps| ==> stamps[i] == now
      ensures sleeps <= old(|stamps|) && throttledCount == old(throttledCount) + sleeps
      ensures now >= start
    {
      now, sleeps := start, 0;
      PrunedHead(stamps, start, MINUTE);
      while true
        invariant sleeps + |Pruned(stamps, now, MINUTE)| <= old(|stamps|)
        invariant throttledCount == old(throttledCount) + sleeps && totalRequests == old(totalRequests)
        invariant now >= start
        decreases |Pruned(stamps, now, MINUTE)|
      {
        ghost var s := View();
        var reply := Acquire(tokens, now);
        match reply
        case Granted =>
          CopiesAreNow(now, tokens);
          return false, now, sleeps;
        case IndexError => return true, now, sleeps;
        case Wait(seconds) =>
          SleepExpiresOldest(s, tokens, now, late(sleeps));
          now, sleeps := now + seconds + late(sleeps), sleeps + 1;
      }
    }
  }

  lemma {:induction false} CopiesAreNow(now: real, tokens: int)
    ensures |Copies(now, tokens)| == if tokens <= 0 then 0 else tokens
    ensures forall i :: 0 <= i < |Copies(now, tokens)| ==> Copies(now, tokens)[i] == now
    decreases tokens
  {
    if tokens > 0 {
      CopiesAreNow(now, tokens - 1);
    }
  }
}
