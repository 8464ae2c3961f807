/**
 * The per-workflow circuit breaker of the AI gateway, and the accounting that
 * makes a failed parallel slice count as one failure.
 *
 * The reference is the history of recorded outcomes.
 */
module Breaker {
  import opened Wrappers

  /** `ai_breaker_failures` is any integer; nothing validates the setting. */
  datatype Settings = Settings(threshold: int, cooldown: real)

  datatype State = State(failures: nat, openedAt: real, lastError: string)

  datatype Event =
    | Failure(at: real, error: string)
    | Success
    | Collapse(baseline: nat)

  const CLOSED := State(0, 0.0, "")

  predicate IsOpen(cfg: Settings, s: State, now: real) {
    s.failures >= cfg.threshold && now - s.openedAt < cfg.cooldown
  }

  function Step(cfg: Settings, s: State, e: Event): State {
    match e
    case Success => CLOSED
    case Failure(at, error) =>
      State(s.failures + 1, if s.failures + 1 >= cfg.threshold then at else s.openedAt, error)
    case Collapse(baseline) =>
      if s.failures > baseline + 1 then s.(failures := baseline + 1) else s
  }

  function From(cfg: Settings, s: State, events: seq<Event>): State {
    if events == [] then s
    else Step(cfg, From(cfg, s, events[..|events| - 1]), events[|events| - 1])
  }

  function After(cfg: Settings, events: seq<Event>): State {
    From(cfg, CLOSED, events)
  }

  // ----- the breaker reads off the failures since the last success -------------------------

  /** A success forgets the failures that count; a collapse leaves the `baseline` oldest and the latest. */
  function Counted(before: seq<Event>, e: Event): seq<Event> {
    match e
    case Success => []
    case Failure(_, _) => before + [e]
    case Collapse(baseline) => if |before| > baseline + 1 then before[..baseline] + [before[|before| - 1]] else before
  }

  /** The failures that count, oldest first. */
  function Counting(events: seq<Event>): seq<Event> {
    if events == [] then [] else Counted(Counting(events[..|events| - 1]), events[|events| - 1])
  }

  lemma {:induction false} CountingAreFailures(events: seq<Event>)
    ensures forall i :: 0 <= i < |Counting(events)| ==> Counting(events)[i].Failure?
  {
    if events != [] {
      CountingAreFailures(events[..|events| - 1]);
    }
  }

  lemma {:induction false} CountsFailures(cfg: Settings, events: seq<Event>)
    ensures After(cfg, events).failures == |Counting(events)|
    ensures Counting(events) == [] ==> After(cfg, events) == CLOSED
    ensures Counting(events) != [] ==>
              var last := Counting(events)[|Counting(events)| - 1];
              && last.Failure? && After(cfg, events).lastError == last.error
              && (|Counting(events)| >= cfg.threshold ==> After(cfg, events).openedAt == last.at)
  {
    CountingAreFailures(events);
    if events != [] {
      CountsFailures(cfg, events[..|events| - 1]);
    }
  }

  /**
   * After any history, with slices collapsed anywhere in it, a call is refused
   * exactly when the failures that count reach the threshold and the latest of
   * them is younger than the cooldown.
   */
  lemma RefusedIffEnoughRecentFailures(cfg: Settings, events: seq<Event>, now: real)
    requires cfg.threshold >= 1
    ensures var counting := Counting(events);
            IsOpen(cfg, After(cfg, events), now)
            <==> |counting| >= cfg.threshold && counting[|counting| - 1].Failure?
                 && now - counting[|counting| - 1].at < cfg.cooldown
  {
    CountsFailures(cfg, events);
  }

  /**
   * With a threshold of zero or less the same holds once something has failed,
   * but a breaker without failures measures the cooldown from clock zero: it
   * refuses calls until the clock itself is past the cooldown.
   */
  lemma ThresholdBelowOneRefusesWithoutFailures(cfg: Settings, events: seq<Event>, now: real)
    requires cfg.threshold <= 0
    ensures var counting := Counting(events);
            IsOpen(cfg, After(cfg, events), now)
            <==> if counting == [] then now < cfg.cooldown
                 else counting[|counting| - 1].Failure? && now - counting[|counting| - 1].at < cfg.cooldown
  {
    CountsFailures(cfg, events);
  }

  // ----- slices ---------------------------------------------------------------------------

  /** Two breakers no later history can tell apart: the opening time only matters at the threshold. */
  predicate Alike(cfg: Settings, s: State, t: State) {
    && s.failures == t.failures && s.lastError == t.lastError
    && (s.failures >= cfg.threshold ==> s.openedAt == t.openedAt)
  }

  lemma {:induction false} AlikeForEver(cfg: Settings, s: State, t: State, later: seq<Event>)
    requires Alike(cfg, s, t)
    ensures Alike(cfg, From(cfg, s, later), From(cfg, t, later))
  {
    if later != [] {
      AlikeForEver(cfg, s, t, later[..|later| - 1]);
    }
  }

  ghost predicate AllFailures(slice: seq<Event>) {
    forall i :: 0 <= i < |slice| ==> slice[i].Failure?
  }

  lemma {:induction false} FailuresAddUp(cfg: Settings, s: State, slice: seq<Event>)
    requires AllFailures(slice)
    ensures From(cfg, s, slice).failures == s.failures + |slice|
    ensures slice != [] ==> From(cfg, s, slice).lastError == slice[|slice| - 1].error
    ensures slice != [] && s.failures + |slice| >= cfg.threshold ==>
              From(cfg, s, slice).openedAt == slice[|slice| - 1].at
  {
    if slice != [] {
      FailuresAddUp(cfg, s, slice[..|slice| - 1]);
    }
  }

  lemma {:induction false} FromConcat(cfg: Settings, s: State, a: seq<Event>, b: seq<Event>)
    ensures From(cfg, s, a + b) == From(cfg, From(cfg, s, a), b)
  {
    if b == [] {
      assert a + b == a;
    } else {
      assert (a + b)[..|a + b| - 1] == a + b[..|b| - 1];
      FromConcat(cfg, s, a, b[..|b| - 1]);
    }
  }

  /**
   * A parallel slice of any number of failures, collapsed to the count taken
   * before it, is for ever after indistinguishable from its last failure alone:
   * the same calls are refused, at every later time, after every later history.
   */
  lemma CollapsedSliceIsOneFailure(cfg: Settings, before: State, slice: seq<Event>, later: seq<Event>, now: real)
    requires slice != [] && AllFailures(slice)
    ensures var collapsed := From(cfg, before, slice + [Collapse(before.failures)] + later);
            var single := From(cfg, before, [slice[|slice| - 1]] + later);
            && collapsed.failures == single.failures && collapsed.lastError == single.lastError
            && (IsOpen(cfg, collapsed, now) <==> IsOpen(cfg, single, now))
  {
    var last, collapse := slice[|slice| - 1], Collapse(before.failures);
    FailuresAddUp(cfg, before, slice);
    FailuresAddUp(cfg, before, [last]);
    FromConcat(cfg, before, slice, [collapse]);
    assert [collapse][..0] == [];
    var s, t := From(cfg, before, slice + [collapse]), From(cfg, before, [last]);
    assert Alike(cfg, s, t);
    FromConcat(cfg, before, slice + [collapse], later);
    FromConcat(cfg, before, [last], later);
    AlikeForEver(cfg, s, t, later);
  }

  lemma {:induction false} CountingConcat(events: seq<Event>, slice: seq<Event>)
    requires AllFailures(slice)
    ensures Counting(events + slice) == Counting(events) + slice
  {
    if slice == [] {
      assert events + slice == events;
    } else {
      var all := events + slice;
      assert all[..|all| - 1] == events + slice[..|slice| - 1];
      CountingConcat(events, slice[..|slice| - 1]);
      assert Counting(events) + slice[..|slice| - 1] + [slice[|slice| - 1]] == Counting(events) + slice;
    }
  }

  lemma CountingSnoc(events: seq<Event>, e: Event)
    ensures Counting(events + [e]) == Counted(Counting(events), e)
  {
    hide Counted;
    assert (events + [e])[..|events|] == events;
  }

  lemma CollapseKeepsLast(before: seq<Event>, slice: seq<Event>)
    requires slice != []
    ensures Counted(before + slice, Collapse(|before|)) == before + [slice[|slice| - 1]]
  {
    if |slice| == 1 {
      assert slice == [slice[0]];
    }
  }

  /** In every history, a collapsed slice of failures adds its last failure to the failures that count. */
  lemma FailedSliceCountsOnce(events: seq<Event>, slice: seq<Event>)
    requires slice != [] && AllFailures(slice)
    ensures Counting(events + slice + [Collapse(|Counting(events)|)]) == Counting(events) + [slice[|slice| - 1]]
  {
    hide Counting, Counted, AllFailures;
    CountingConcat(events, slice);
    CountingSnoc(events + slice, Collapse(|Counting(events)|));
    CollapseKeepsLast(Counting(events), slice);
  }

  /**
   * With any outcomes in the slice, collapses of overlapping slices included, a
   * collapse caps the failures that count at one more than its baseline; the
   * error and, while the breaker can be open, its opening time stay.
   */
  lemma CollapseAfterMixedSlice(cfg: Settings, events: seq<Event>, slice: seq<Event>, now: real)
    ensures var baseline, during := After(cfg, events).failures, After(cfg, events + slice);
            var collapsed := After(cfg, events + slice + [Collapse(baseline)]);
            && baseline == |Counting(events)|
            && collapsed.failures == Min(|Counting(events + slice)|, baseline + 1)
            && collapsed.lastError == during.lastError
            && (IsOpen(cfg, collapsed, now) <==> IsOpen(cfg, during, now) && baseline + 1 >= cfg.threshold)
  {
    CountsFailures(cfg, events);
    CountsFailures(cfg, events + slice);
    hide Counting;
    var all := events + slice + [Collapse(|Counting(events)|)];
    assert all[..|all| - 1] == events + slice;
  }

  // ----- the breaker in place ---------------------------------------------------------------

  class Breaker {
    const cfg: Settings
    var failures: nat
    var openedAt: real
    var lastError: string

    constructor (cfg: Settings)
      ensures Value() == CLOSED && this.cfg == cfg
    {
      this.cfg := cfg;
      failures, openedAt, lastError := 0, 0.0, "";
    }

    function Value(): State
      reads this
    {
      State(failures, openedAt, lastError)
    }

    predicate Refuses(now: real): (refused: bool)
      reads this
      ensures refused <==> IsOpen(cfg, Value(), now)
    {
      if failures < cfg.threshold then false else now - openedAt < cfg.cooldown
    }

    method RecordSuccess()
      modifies this
      ensures Value() == Step(cfg, old(Value()), Success)
    {
      failures, openedAt, lastError := 0, 0.0, "";
    }

    method RecordFailure(error: string, now: real)
      modifies this
      ensures Value() == Step(cfg, old(Value()), Failure(now, error))
    {
      failures := failures + 1;
      lastError := error;
      if failures >= cfg.threshold {
        openedAt := now;
      }
    }

    method CollapseSliceFailures(baseline: nat)
      modifies this
      ensures Value() == Step(cfg, old(Value()), Collapse(baseline))
    {
      if failures > baseline + 1 {
        failures := baseline + 1;
      }
    }
  }
}
