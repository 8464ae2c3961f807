/**
 * The per-key request limiter (`SlidingWindowLog`): an `OrderedDict` from key to
 * a deque of admitted timestamps, capped by least-recently-called eviction and
 * swept of dead keys now and then.
 *
 * `Step` is one call of `allow` on values; the class at the end performs it in
 * place. The reference is a log that never forgets an admitted hit.
 */
module RequestLimiter {
  import opened Recency
  import opened SlidingWindow
  import opened Wrappers

  type Key = string

  const SWEEP_SCAN := 1024

  /** The constructor raises a smaller cap to 16 and shorter durations to one second. */
  type Cap = n: nat | n >= 16 witness 16
  type Seconds = x: real | x >= 1.0 witness 1.0

  datatype Config = Config(maxKeys: Cap, window: Seconds, sweepInterval: Seconds)

  /** The ordered dict: `order` is its key order, oldest call first. */
  datatype Log = Log(order: seq<Key>, hits: map<Key, seq<real>>, lastSweep: real)

  datatype Call = Call(key: Key, budget: int, moment: real)

  datatype Verdict = Verdict(allowed: bool, retryAfter: int)

  ghost predicate Wf(l: Log) {
    && Distinct(l.order)
    && forall k :: k in l.order <==> k in l.hits
  }

  function Ceil(x: real): (n: int)
    ensures n as real - 1.0 < x <= n as real
  {
    -((-x).Floor)
  }

  function Bucket(l: Log, k: Key): seq<real> {
    if k in l.hits then l.hits[k] else []
  }

  /** `l` without its first `n` keys. */
  function Cut(l: Log, n: nat): Log
    requires n <= |l.order|
  {
    Log(l.order[n..], map k | k in l.order[n..] && k in l.hits :: l.hits[k], l.lastSweep)
  }

  /** The sweep drops a key whose bucket is empty or whose newest hit left the window. */
  predicate Dead(bucket: seq<real>, now: real, window: real) {
    bucket == [] || now - bucket[|bucket| - 1] > window
  }

  /** Number of leading keys that are dead, looking at no more than `limit` of them. */
  function DeadRun(order: seq<Key>, l: Log, now: real, window: real, limit: nat): (n: nat)
    ensures n <= |order| && n <= limit
    ensures forall i :: 0 <= i < n ==> Dead(Bucket(l, order[i]), now, window)
    ensures n < |order| && n < limit ==> !Dead(Bucket(l, order[n]), now, window)
  {
    if limit == 0 || order == [] || !Dead(Bucket(l, order[0]), now, window) then 0
    else 1 + DeadRun(order[1..], l, now, window, limit - 1)
  }

  function DeadDropped(c: Config, l: Log, now: real): Log {
    Cut(l, DeadRun(l.order, l, now, c.window, SWEEP_SCAN))
  }

  function Swept(c: Config, l: Log, now: real): Log {
    if now - l.lastSweep < c.sweepInterval then l
    else DeadDropped(c, l, now).(lastSweep := now)
  }

  /** Look the key up: move it to the end, or insert it and evict from the front. */
  function Entered(c: Config, l: Log, k: Key): Log {
    if k in l.hits then l.(order := Touch(l.order, k)) else Capped(c, Inserted(l, k))
  }

  function Inserted(l: Log, k: Key): Log {
    Log(l.order + [k], l.hits[k := []], l.lastSweep)
  }

  function Capped(c: Config, l: Log): Log {
    Cut(l, Max(0, |l.order| - c.maxKeys))
  }

  /** Prune the bucket of the key just entered, then admit or deny. */
  function Decided(c: Config, e: Log, call: Call): (Log, Verdict) {
    var live := Pruned(Bucket(e, call.key), call.moment, c.window);
    if |live| >= Max(1, call.budget) then
      (e.(hits := e.hits[call.key := live]),
       Verdict(false, Max(1, Ceil(c.window - (call.moment - live[0])))))
    else
      (e.(hits := e.hits[call.key := live + [call.moment]]), Verdict(true, 0))
  }

  /** One `allow`. */
  function Step(c: Config, l: Log, call: Call): (Log, Verdict) {
    Decided(c, Entered(c, Swept(c, l, call.moment), call.key), call)
  }

  // ----- runs ---------------------------------------------------------------

  function Empty(t0: real): Log {
    Log([], map[], t0)
  }

  function After(c: Config, t0: real, calls: seq<Call>): Log {
    if calls == [] then Empty(t0)
    else Step(c, After(c, t0, calls[..|calls| - 1]), calls[|calls| - 1]).0
  }

  function Clock(t0: real, calls: seq<Call>): real {
    if calls == [] then t0 else calls[|calls| - 1].moment
  }

  /** The clock never runs backwards. */
  ghost predicate Clocked(t0: real, calls: seq<Call>) {
    && (forall i :: 0 <= i < |calls| ==> t0 <= calls[i].moment)
    && (forall i, j :: 0 <= i < j < |calls| ==> calls[i].moment <= calls[j].moment)
  }

  function Keys(calls: seq<Call>): seq<Key> {
    if calls == [] then [] else Keys(calls[..|calls| - 1]) + [calls[|calls| - 1].key]
  }

  /** This call throws `k` out because the map is over its cap. */
  ghost predicate CapDrops(c: Config, l: Log, call: Call, k: Key) {
    k in Swept(c, l, call.moment).order && k !in Step(c, l, call).0.order
  }

  ghost predicate NeverCapDropped(c: Config, t0: real, calls: seq<Call>, k: Key) {
    calls != [] ==>
      var before := calls[..|calls| - 1];
      NeverCapDropped(c, t0, before, k) && !CapDrops(c, After(c, t0, before), calls[|calls| - 1], k)
  }

  // ----- the reference ------------------------------------------------------

  /** Decide by counting the admitted hits in `[moment - window, moment]`. */
  function NaiveVerdict(hits: seq<real>, call: Call, window: real): Verdict {
    var live := Within(hits, call.moment - window, call.moment);
    if |live| < Max(1, call.budget) then Verdict(true, 0)
    else Verdict(false, Max(1, Ceil(window - (call.moment - live[0]))))
  }

  /** Every hit of `k` the reference admits; nothing is ever pruned, swept or evicted. */
  function FullHistory(window: real, calls: seq<Call>, k: Key): seq<real> {
    if calls == [] then []
    else
      var hits, call := FullHistory(window, calls[..|calls| - 1], k), calls[|calls| - 1];
      if call.key == k && NaiveVerdict(hits, call, window).allowed then hits + [call.moment] else hits
  }

  /** The budgets under which those hits were admitted. */
  function FullBudgets(window: real, calls: seq<Call>, k: Key): seq<int> {
    if calls == [] then []
    else
      var before, call := calls[..|calls| - 1], calls[|calls| - 1];
      var budgets := FullBudgets(window, before, k);
      if call.key == k && NaiveVerdict(FullHistory(window, before, k), call, window).allowed
      then budgets + [Max(1, call.budget)] else budgets
  }

  /** The history of `k` after one more call. */
  ghost function ExtendHistory(c: Config, l: Log, call: Call, k: Key, full: seq<real>): seq<real> {
    var hits := if CapDrops(c, l, call, k) then [] else full;
    if call.key == k && NaiveVerdict(hits, call, c.window).allowed then hits + [call.moment] else hits
  }

  /** As `FullHistory`, restarted whenever the cap drops the key. */
  ghost function HistorySinceDrop(c: Config, t0: real, calls: seq<Call>, k: Key): seq<real> {
    if calls == [] then []
    else
      var before, call := calls[..|calls| - 1], calls[|calls| - 1];
      ExtendHistory(c, After(c, t0, before), call, k, HistorySinceDrop(c, t0, before, k))
  }

  /** The hits of `k` the limiter itself let through. */
  function AdmittedHits(c: Config, t0: real, calls: seq<Call>, k: Key): seq<real> {
    if calls == [] then []
    else
      var before, call := calls[..|calls| - 1], calls[|calls| - 1];
      var hits := AdmittedHits(c, t0, before, k);
      if call.key == k && Step(c, After(c, t0, before), call).1.allowed then hits + [call.moment] else hits
  }

  // ----- one call -----------------------------------------------------------

  lemma InSuffix(order: seq<Key>, n: nat, k: Key)
    requires n <= |order| && Distinct(order)
    ensures k in order[n..] ==> k in order && k !in order[..n]
    ensures k in order && k !in order[n..] ==> k in order[..n]
  {
    assert order == order[..n] + order[n..];
    assert forall i, j :: 0 <= i < n <= j < |order| ==> order[i] != order[j];
  }

  lemma CutKeepsWf(l: Log, n: nat)
    requires Wf(l) && n <= |l.order|
    ensures Wf(Cut(l, n))
  {
    var tail := l.order[n..];
    assert forall i :: 0 <= i < |tail| ==> tail[i] == l.order[n + i];
  }

  /** Cutting keeps a key with its bucket, or drops it because it is among the first. */
  lemma CutAt(l: Log, n: nat, k: Key)
    requires Wf(l) && n <= |l.order|
    ensures k in Cut(l, n).hits ==> k in l.hits && l.hits[k] == Cut(l, n).hits[k]
    ensures k in l.hits && k !in Cut(l, n).hits ==> k in l.order[..n]
  {
    InSuffix(l.order, n, k);
  }

  lemma SweptIsSuffix(c: Config, l: Log, now: real) returns (n: nat)
    requires Wf(l)
    ensures n <= |l.order| && Swept(c, l, now).order == l.order[n..]
  {
    if now - l.lastSweep < c.sweepInterval {
      assert l.order == l.order[0..];
      n := 0;
    } else {
      n := DeadRun(l.order, l, now, c.window, SWEEP_SCAN);
    }
  }

  lemma SweptIsWf(c: Config, l: Log, now: real)
    requires Wf(l)
    ensures Wf(Swept(c, l, now)) && |Swept(c, l, now).order| <= |l.order|
  {
    if now - l.lastSweep >= c.sweepInterval {
      CutKeepsWf(l, DeadRun(l.order, l, now, c.window, SWEEP_SCAN));
    }
  }

  /** The sweep keeps a key with its bucket, or drops it dead. */
  lemma SweptAt(c: Config, l: Log, now: real, k: Key)
    requires Wf(l)
    ensures k in Swept(c, l, now).hits ==> k in l.hits && Bucket(Swept(c, l, now), k) == Bucket(l, k)
    ensures k in l.hits && k !in Swept(c, l, now).hits ==> Dead(Bucket(l, k), now, c.window)
  {
    if now - l.lastSweep >= c.sweepInterval {
      var n := DeadRun(l.order, l, now, c.window, SWEEP_SCAN);
      CutAt(l, n, k);
      if k in l.order[..n] {
        var i :| 0 <= i < n && l.order[i] == k;
        assert Dead(Bucket(l, l.order[i]), now, c.window);
      }
    }
  }

  lemma InsertedIsWf(l: Log, k: Key)
    requires Wf(l) && k !in l.hits
    ensures Wf(Inserted(l, k))
  {
  }

  lemma CappedFacts(c: Config, l: Log, k: Key)
    requires Wf(l) && k !in l.hits
    ensures var l' := Capped(c, Inserted(l, k));
            Wf(l') && k in l'.hits && l'.hits[k] == [] && |l'.order| <= c.maxKeys
  {
    var grown := Inserted(l, k);
    var n := Max(0, |grown.order| - c.maxKeys);
    InsertedIsWf(l, k);
    CutKeepsWf(grown, n);
    assert grown.order[n..][|l.order| - n] == k;
  }

  lemma EnteredIsWf(c: Config, l: Log, k: Key)
    requires Wf(l)
    ensures Wf(Entered(c, l, k)) && k in Entered(c, l, k).hits && Bucket(Entered(c, l, k), k) == Bucket(l, k)
    ensures |l.order| <= c.maxKeys ==> |Entered(c, l, k).order| <= c.maxKeys
  {
    if k in l.hits {
      TouchIsDistinct(l.order, k);
    } else {
      CappedFacts(c, l, k);
    }
  }

  lemma EnteredAt(c: Config, l: Log, k: Key, x: Key)
    requires Wf(l) && x != k
    ensures x in Entered(c, l, k).hits ==> x in l.hits && Bucket(Entered(c, l, k), x) == Bucket(l, x)
  {
    if k !in l.hits {
      InsertedIsWf(l, k);
      CutAt(Inserted(l, k), Max(0, |l.order| + 1 - c.maxKeys), x);
    }
  }

  /** What a call may do to the buckets of other keys: nothing, or drop a dead or evicted one. */
  lemma StepOnOthers(c: Config, l: Log, call: Call, k: Key)
    requires Wf(l) && k != call.key
    ensures var l' := Step(c, l, call).0;
            || Bucket(l', k) == Bucket(l, k)
            || (Bucket(l', k) == [] && (Dead(Bucket(l, k), call.moment, c.window) || CapDrops(c, l, call, k)))
  {
    var s := Swept(c, l, call.moment);
    SweptIsWf(c, l, call.moment);
    SweptAt(c, l, call.moment, k);
    EnteredIsWf(c, s, call.key);
    EnteredAt(c, s, call.key, k);
    assert Bucket(Step(c, l, call).0, k) == Bucket(Entered(c, s, call.key), k);
    assert k in s.order <==> k in s.hits;
    assert k in Entered(c, s, call.key).order <==> k in Entered(c, s, call.key).hits;
  }

  /** The bucket a call works on is the old one, unless the sweep just dropped it as dead. */
  lemma BucketAtEntry(c: Config, l: Log, call: Call)
    requires Wf(l)
    ensures var b := Bucket(Entered(c, Swept(c, l, call.moment), call.key), call.key);
            || b == Bucket(l, call.key)
            || (b == [] && Dead(Bucket(l, call.key), call.moment, c.window))
  {
    SweptIsWf(c, l, call.moment);
    SweptAt(c, l, call.moment, call.key);
    EnteredIsWf(c, Swept(c, l, call.moment), call.key);
  }

  lemma StepKeepsWf(c: Config, l: Log, call: Call)
    requires Wf(l)
    ensures var l' := Step(c, l, call).0;
            Wf(l') && call.key in l'.order && (|l.order| <= c.maxKeys ==> |l'.order| <= c.maxKeys)
  {
    SweptIsWf(c, l, call.moment);
    EnteredIsWf(c, Swept(c, l, call.moment), call.key);
  }

  // ----- whole runs -----------------------------------------------------------

  /** The map never exceeds its cap and the key being served is never the one evicted. */
  lemma {:induction false} AfterIsWf(c: Config, t0: real, calls: seq<Call>)
    ensures Wf(After(c, t0, calls)) && |After(c, t0, calls).order| <= c.maxKeys
    ensures calls != [] ==> calls[|calls| - 1].key in After(c, t0, calls).order
  {
    if calls != [] {
      var before := calls[..|calls| - 1];
      AfterIsWf(c, t0, before);
      StepKeepsWf(c, After(c, t0, before), calls[|calls| - 1]);
    }
  }

  /** Coverage of a key the call does not serve survives the call, from scratch if the cap dropped it. */
  lemma OthersStayCovered(c: Config, l: Log, call: Call, k: Key, full: seq<real>, clock: real)
    requires Wf(l) && k != call.key && clock <= call.moment
    requires Ascending(full) && Covers(full, Bucket(l, k), clock, c.window)
    ensures Covers(if CapDrops(c, l, call, k) then [] else full,
                   Bucket(Step(c, l, call).0, k), call.moment, c.window)
  {
    StepKeepsWf(c, l, call);
    StepOnOthers(c, l, call, k);
    if !CapDrops(c, l, call, k) {
      if Bucket(Step(c, l, call).0, k) == Bucket(l, k) {
        CoversLater(full, Bucket(l, k), clock, call.moment, c.window);
      } else {
        CoversDead(full, Bucket(l, k), clock, call.moment, c.window);
      }
    }
  }

  lemma ServedStaysCovered(c: Config, l: Log, call: Call, full: seq<real>, clock: real)
    requires Wf(l) && clock <= call.moment
    requires Ascending(full) && NoneAfter(full, clock) && Covers(full, Bucket(l, call.key), clock, c.window)
    ensures !CapDrops(c, l, call, call.key)
    ensures var (l', verdict) := Step(c, l, call);
            && verdict == NaiveVerdict(full, call, c.window)
            && Covers(if verdict.allowed then full + [call.moment] else full,
                      Bucket(l', call.key), call.moment, c.window)
  {
    StepKeepsWf(c, l, call);
    EntryCoversHistory(c, l, call, full, clock);
    var b := Bucket(Entered(c, Swept(c, l, call.moment), call.key), call.key);
    CoversPruned(full, b, call.moment, call.moment, c.window);
    CoversAppend(full, Pruned(b, call.moment, c.window), call.moment, c.window, call.moment);
  }

  lemma HistoryStaysCovered(c: Config, l: Log, call: Call, k: Key, full: seq<real>, clock: real)
    requires Wf(l) && clock <= call.moment
    requires Ascending(full) && NoneAfter(full, clock) && Covers(full, Bucket(l, k), clock, c.window)
    ensures var full' := ExtendHistory(c, l, call, k, full);
            && Ascending(full') && NoneAfter(full', call.moment)
            && Covers(full', Bucket(Step(c, l, call).0, k), call.moment, c.window)
  {
    if k != call.key {
      OthersStayCovered(c, l, call, k, full, clock);
    } else {
      ServedStaysCovered(c, l, call, full, clock);
      AscendingAppend(full, clock, call.moment);
    }
  }

  lemma ClockedPrefix(t0: real, calls: seq<Call>)
    requires calls != [] && Clocked(t0, calls)
    ensures Clocked(t0, calls[..|calls| - 1])
    ensures Clock(t0, calls[..|calls| - 1]) <= calls[|calls| - 1].moment
  {
  }

  /**
   * Whatever was pruned, swept or moved in between, the bucket of every key is
   * the part of its full history that can still matter.
   */
  lemma {:induction false} BucketsCoverHistory(c: Config, t0: real, calls: seq<Call>, k: Key)
    requires Clocked(t0, calls)
    ensures var full := HistorySinceDrop(c, t0, calls, k);
            && Ascending(full) && NoneAfter(full, Clock(t0, calls))
            && Covers(full, Bucket(After(c, t0, calls), k), Clock(t0, calls), c.window)
  {
    if calls != [] {
      var before, call := calls[..|calls| - 1], calls[|calls| - 1];
      ClockedPrefix(t0, calls);
      BucketsCoverHistory(c, t0, before, k);
      AfterIsWf(c, t0, before);
      HistoryStaysCovered(c, After(c, t0, before), call, k, HistorySinceDrop(c, t0, before, k), Clock(t0, before));
    }
  }

  lemma EntryCoversHistory(c: Config, l: Log, call: Call, full: seq<real>, clock: real)
    requires Wf(l) && clock <= call.moment
    requires Ascending(full) && NoneAfter(full, clock)
    requires Covers(full, Bucket(l, call.key), clock, c.window)
    ensures var b := Bucket(Entered(c, Swept(c, l, call.moment), call.key), call.key);
            && Covers(full, b, call.moment, c.window)
            && Pruned(b, call.moment, c.window) == Within(full, call.moment - c.window, call.moment)
    ensures Step(c, l, call).1 == NaiveVerdict(full, call, c.window)
  {
    hide Entered, Swept, Pruned, Within, Ceil;
    BucketAtEntry(c, l, call);
    var bucket, b := Bucket(l, call.key), Bucket(Entered(c, Swept(c, l, call.moment), call.key), call.key);
    if b == bucket {
      CoversLater(full, b, clock, call.moment, c.window);
    } else {
      CoversDead(full, bucket, clock, call.moment, c.window);
    }
    PrunedIsWithin(full, b, call.moment, call.moment, c.window);
  }

  /**
   * Main refinement: on a nondecreasing clock every verdict, retry hint included,
   * is the one the never-forgetting reference gives on the history since the key
   * was last dropped by the cap.
   */
  lemma VerdictsAreNaive(c: Config, t0: real, calls: seq<Call>, call: Call)
    requires Clocked(t0, calls + [call])
    ensures Step(c, After(c, t0, calls), call).1
         == NaiveVerdict(HistorySinceDrop(c, t0, calls, call.key), call, c.window)
  {
    assert Clocked(t0, calls) by {
      assert forall i :: 0 <= i < |calls| ==> calls[i] == (calls + [call])[i];
    }
    assert Clock(t0, calls) <= call.moment by {
      assert (calls + [call])[|calls|] == call;
      assert calls != [] ==> (calls + [call])[|calls| - 1] == calls[|calls| - 1];
    }
    AfterIsWf(c, t0, calls);
    BucketsCoverHistory(c, t0, calls, call.key);
    EntryCoversHistory(c, After(c, t0, calls), call, HistorySinceDrop(c, t0, calls, call.key), Clock(t0, calls));
  }

  lemma {:induction false} SinceDropIsFull(c: Config, t0: real, calls: seq<Call>, k: Key)
    requires NeverCapDropped(c, t0, calls, k)
    ensures HistorySinceDrop(c, t0, calls, k) == FullHistory(c.window, calls, k)
  {
    hide Step, After, NaiveVerdict, CapDrops;
    if calls != [] {
      SinceDropIsFull(c, t0, calls[..|calls| - 1], k);
    }
  }

  /** For a key the cap never dropped, that history is simply the full one, and it is what got through. */
  lemma {:induction false} NeverDroppedIsFull(c: Config, t0: real, calls: seq<Call>, k: Key)
    requires Clocked(t0, calls) && NeverCapDropped(c, t0, calls, k)
    ensures HistorySinceDrop(c, t0, calls, k) == FullHistory(c.window, calls, k)
    ensures AdmittedHits(c, t0, calls, k) == FullHistory(c.window, calls, k)
  {
    hide Step, After, NaiveVerdict, CapDrops, HistorySinceDrop;
    SinceDropIsFull(c, t0, calls, k);
    if calls != [] {
      var before, call := calls[..|calls| - 1], calls[|calls| - 1];
      ClockedPrefix(t0, calls);
      assert calls == before + [call];
      NeverDroppedIsFull(c, t0, before, k);
      if call.key == k {
        VerdictsAreNaive(c, t0, before, call);
      }
    }
  }

  /** Sweeps cannot be observed: two limiters that differ only in their sweep interval agree. */
  lemma SweepsAreUnobservable(c: Config, c': Config, t0: real, calls: seq<Call>, call: Call)
    requires Clocked(t0, calls + [call]) && c.window == c'.window
    requires NeverCapDropped(c, t0, calls, call.key) && NeverCapDropped(c', t0, calls, call.key)
    ensures Step(c, After(c, t0, calls), call).1 == Step(c', After(c', t0, calls), call).1
  {
    assert Clocked(t0, calls) by {
      assert forall i :: 0 <= i < |calls| ==> calls[i] == (calls + [call])[i];
    }
    VerdictsAreNaive(c, t0, calls, call);
    VerdictsAreNaive(c', t0, calls, call);
    NeverDroppedIsFull(c, t0, calls, call.key);
    NeverDroppedIsFull(c', t0, calls, call.key);
  }

  lemma {:induction false} FullHistoryAscends(t0: real, window: real, calls: seq<Call>, k: Key)
    requires Clocked(t0, calls)
    ensures Ascending(FullHistory(window, calls, k)) && NoneAfter(FullHistory(window, calls, k), Clock(t0, calls))
  {
    if calls != [] {
      var before, call := calls[..|calls| - 1], calls[|calls| - 1];
      ClockedPrefix(t0, calls);
      FullHistoryAscends(t0, window, before, k);
      AscendingAppend(FullHistory(window, before, k), Clock(t0, before), call.moment);
    }
  }

  lemma {:induction false} FullHistoryIsBudgeted(window: real, calls: seq<Call>, k: Key)
    ensures AdmittedUnder(FullHistory(window, calls, k), FullBudgets(window, calls, k), window)
  {
    if calls != [] {
      var before, call := calls[..|calls| - 1], calls[|calls| - 1];
      FullHistoryIsBudgeted(window, before, k);
      var hits := FullHistory(window, before, k);
      if call.key == k && NaiveVerdict(hits, call, window).allowed {
        AdmittedAppend(hits, FullBudgets(window, before, k), window, call.moment, Max(1, call.budget));
      }
    }
  }

  /**
   * The limit holds in every closed interval no longer than the window, not only
   * in those ending at a call: the hits let through number at most the budget of
   * the last of them.
   */
  lemma WindowNeverExceeded(c: Config, t0: real, calls: seq<Call>, k: Key, from: real, to: real)
    requires Clocked(t0, calls) && NeverCapDropped(c, t0, calls, k)
    requires to - from <= c.window
    ensures var hits := AdmittedHits(c, t0, calls, k);
            var budgets := FullBudgets(c.window, calls, k);
            var last := LastWithin(hits, from, to);
            && |budgets| == |hits|
            && |Within(hits, from, to)| <= if last < 0 then 0 else budgets[last]
  {
    NeverDroppedIsFull(c, t0, calls, k);
    FullHistoryAscends(t0, c.window, calls, k);
    FullHistoryIsBudgeted(c.window, calls, k);
    WindowBound(FullHistory(c.window, calls, k), FullBudgets(c.window, calls, k), c.window, from, to);
  }

  // ----- key order and eviction -------------------------------------------------

  lemma ByLastUseSuffix(order: seq<Key>, uses: seq<Key>, n: nat)
    requires ByLastUse(order, uses) && n <= |order|
    ensures ByLastUse(order[n..], uses)
  {
  }

  lemma SweptOrder(c: Config, l: Log, now: real, uses: seq<Key>)
    requires Wf(l) && ByLastUse(l.order, uses)
    ensures ByLastUse(Swept(c, l, now).order, uses)
    ensures |Swept(c, l, now).order| <= |l.order|
  {
    var n := SweptIsSuffix(c, l, now);
    ByLastUseSuffix(l.order, uses, n);
  }

  lemma EnteredOrder(c: Config, l: Log, k: Key, uses: seq<Key>)
    requires Wf(l) && ByLastUse(l.order, uses)
    ensures ByLastUse(Entered(c, l, k).order, uses + [k])
  {
    hide LastUse;
    UseKeepsOrder(l.order, uses, k);
    if k !in l.hits {
      assert Touch(l.order, k) == Inserted(l, k).order;
      ByLastUseSuffix(Inserted(l, k).order, uses + [k], Max(0, |l.order| + 1 - c.maxKeys));
    }
  }

  lemma StepOrder(c: Config, l: Log, call: Call, uses: seq<Key>)
    requires Wf(l) && ByLastUse(l.order, uses)
    ensures ByLastUse(Step(c, l, call).0.order, uses + [call.key])
  {
    SweptIsWf(c, l, call.moment);
    SweptOrder(c, l, call.moment, uses);
    EnteredOrder(c, Swept(c, l, call.moment), call.key, uses);
  }

  /** The key order is always the order of the keys' last calls. */
  lemma {:induction false} OrderIsByLastCall(c: Config, t0: real, calls: seq<Call>)
    ensures ByLastUse(After(c, t0, calls).order, Keys(calls))
  {
    if calls != [] {
      var before, call := calls[..|calls| - 1], calls[|calls| - 1];
      OrderIsByLastCall(c, t0, before);
      AfterIsWf(c, t0, before);
      StepOrder(c, After(c, t0, before), call, Keys(before));
    }
  }

  /** The cap drops a key only after `maxKeys` distinct other keys were called since its last call. */
  lemma CapDropMeansOvertaken(c: Config, t0: real, calls: seq<Call>, call: Call, k: Key)
    requires CapDrops(c, After(c, t0, calls), call, k)
    ensures |UsedSince(Keys(calls + [call]), k)| >= c.maxKeys
  {
    AfterIsWf(c, t0, calls);
    OrderIsByLastCall(c, t0, calls);
    assert (calls + [call])[..|calls|] == calls;
    DropMeansOvertaken(c, After(c, t0, calls), call, k, Keys(calls));
  }

  lemma DropMeansOvertaken(c: Config, l: Log, call: Call, k: Key, uses: seq<Key>)
    requires Wf(l) && ByLastUse(l.order, uses) && |l.order| <= c.maxKeys
    requires CapDrops(c, l, call, k)
    ensures |UsedSince(uses + [call.key], k)| >= c.maxKeys
  {
    SweptIsWf(c, l, call.moment);
    SweptOrder(c, l, call.moment, uses);
    OnlyTheOldestIsDropped(c, Swept(c, l, call.moment), call.key, k, uses);
  }

  lemma OnlyTheOldestIsDropped(c: Config, s: Log, key: Key, k: Key, uses: seq<Key>)
    requires Wf(s) && ByLastUse(s.order, uses) && |s.order| <= c.maxKeys
    requires k in s.order && k !in Entered(c, s, key).order
    ensures |s.order| == c.maxKeys && s.order[0] == k && key !in s.order
    ensures |UsedSince(uses + [key], k)| >= c.maxKeys
  {
    if key in s.hits {
      TouchIsDistinct(s.order, key);
    } else {
      var grown := s.order + [key];
      CutOffFront(grown, Max(0, |grown| - c.maxKeys), k);
      UseKeepsOrder(s.order, uses, key);
      assert Touch(s.order, key) == grown;
      OvertakenBy(grown, uses + [key], 0);
    }
  }

  lemma CutOffFront(order: seq<Key>, n: nat, k: Key)
    requires n <= |order| && n <= 1
    requires k in order && k !in order[n..]
    ensures n == 1 && k == order[0]
  {
    assert order == order[..n] + order[n..];
  }

  // ----- the retry hint -----------------------------------------------------------

  lemma NaiveAllowedIff(hits: seq<real>, call: Call, window: real)
    ensures NaiveVerdict(hits, call, window).allowed
       <==> |Within(hits, call.moment - window, call.moment)| < Max(1, call.budget)
  {
  }

  /** `k` is not dropped by the cap during `more`, which follow `calls`. */
  ghost predicate KeptThrough(c: Config, t0: real, calls: seq<Call>, more: seq<Call>, k: Key) {
    more != [] ==>
      var before := more[..|more| - 1];
      && KeptThrough(c, t0, calls, before, k)
      && !CapDrops(c, After(c, t0, calls + before), more[|more| - 1], k)
  }

  /** Calls of other keys leave the history of `k` alone as long as the cap keeps it. */
  lemma {:induction false} HistoryThroughOthers(c: Config, t0: real, calls: seq<Call>, more: seq<Call>, k: Key)
    requires KeptThrough(c, t0, calls, more, k)
    requires forall i :: 0 <= i < |more| ==> more[i].key != k
    ensures HistorySinceDrop(c, t0, calls + more, k) == HistorySinceDrop(c, t0, calls, k)
  {
    hide CapDrops, Step, NaiveVerdict;
    if more == [] {
      assert calls + more == calls;
    } else {
      var before := more[..|more| - 1];
      HistoryThroughOthers(c, t0, calls, before, k);
      assert (calls + more)[..|calls + more| - 1] == calls + before;
      assert (calls + more)[|calls + more| - 1] == more[|more| - 1];
    }
  }

  lemma {:induction false} ClockedPrefixes(t0: real, calls: seq<Call>, n: nat)
    requires Clocked(t0, calls) && n <= |calls|
    ensures Clocked(t0, calls[..n])
    ensures n < |calls| ==> Clock(t0, calls[..n]) <= calls[n].moment
  {
    var front := calls[..n];
    assert forall i :: 0 <= i < n ==> front[i] == calls[i];
  }

  lemma DeniedBucket(c: Config, l: Log, call: Call)
    requires !Step(c, l, call).1.allowed
    ensures var entered := Entered(c, Swept(c, l, call.moment), call.key);
            Bucket(Step(c, l, call).0, call.key) == Pruned(Bucket(entered, call.key), call.moment, c.window)
  {
    hide Entered, Swept;
  }

  lemma DenialAddsNothing(c: Config, l: Log, call: Call, history: seq<real>)
    requires !CapDrops(c, l, call, call.key) && !NaiveVerdict(history, call, c.window).allowed
    ensures ExtendHistory(c, l, call, call.key, history) == history
  {
  }

  /** After a denied call the bucket holds the hits of the window, and the history is what it was. */
  lemma AfterDenial(c: Config, t0: real, calls: seq<Call>, call: Call)
    requires Clocked(t0, calls) && Clock(t0, calls) <= call.moment
    requires !Step(c, After(c, t0, calls), call).1.allowed
    ensures var history := HistorySinceDrop(c, t0, calls, call.key);
            && Ascending(history) && NoneAfter(history, call.moment)
            && Step(c, After(c, t0, calls), call).1 == NaiveVerdict(history, call, c.window)
            && Bucket(Step(c, After(c, t0, calls), call).0, call.key)
               == Within(history, call.moment - c.window, call.moment)
            && HistorySinceDrop(c, t0, calls + [call], call.key) == history
  {
    hide Step, Bucket, Within, NaiveVerdict, CapDrops, ExtendHistory, Ascending, NoneAfter, Pruned, Covers;
    var l, history := After(c, t0, calls), HistorySinceDrop(c, t0, calls, call.key);
    AfterIsWf(c, t0, calls);
    BucketsCoverHistory(c, t0, calls, call.key);
    EntryCoversHistory(c, l, call, history, Clock(t0, calls));
    ServedStaysCovered(c, l, call, history, Clock(t0, calls));
    NoneAfterLater(history, Clock(t0, calls), call.moment);
    DeniedBucket(c, l, call);
    DenialAddsNothing(c, l, call, history);
    assert (calls + [call])[..|calls|] == calls;
  }

  /** How many hits a history keeps in a later window, read off the hits of the earlier one. */
  lemma FewerLaterIff(hits: seq<real>, from: real, to: real, from': real, to': real, n: nat)
    requires Ascending(hits) && NoneAfter(hits, to) && from <= from' && to <= to' && n >= 1
    ensures var live := Within(hits, from, to);
            |Within(hits, from', to')| < n <==> |live| < n || live[|live| - n] < from'
  {
    var live := Within(hits, from, to);
    if |live| < n {
      WithinOfWithin(hits, from, to, from', to');
      WithinLength(live, from', to');
    } else {
      FewerThanOfWithin(hits, from, to, from', to', n);
    }
  }

  /**
   * `again` is a later call of the key `call` was denied for: the clock ran on, other
   * keys called in between, and the cap kept the key.
   */
  ghost predicate ComesBack(c: Config, t0: real, calls: seq<Call>, call: Call, others: seq<Call>, again: Call) {
    && !Step(c, After(c, t0, calls), call).1.allowed && again.key == call.key
    && Clocked(t0, calls + [call] + others + [again])
    && (forall i :: 0 <= i < |others| ==> others[i].key != call.key)
    && KeptThrough(c, t0, calls + [call], others, call.key)
  }

  lemma ClockOfReturn(c: Config, t0: real, calls: seq<Call>, call: Call, others: seq<Call>, again: Call)
    requires Clocked(t0, calls + [call] + others + [again])
    ensures Clocked(t0, calls) && Clock(t0, calls) <= call.moment <= again.moment
  {
    var all := calls + [call] + others + [again];
    assert all[..|calls|] == calls && all[|calls|] == call && all[|all| - 1] == again;
    ClockedPrefixes(t0, all, |calls|);
  }

  /** The call that comes back is judged on the history the denied one was judged on. */
  lemma ReturnSeesSameHistory(c: Config, t0: real, calls: seq<Call>, call: Call, others: seq<Call>, again: Call)
    requires ComesBack(c, t0, calls, call, others, again)
    ensures var history := HistorySinceDrop(c, t0, calls, call.key);
            && Step(c, After(c, t0, calls + [call] + others), again).1 == NaiveVerdict(history, again, c.window)
            && Ascending(history) && NoneAfter(history, call.moment) && call.moment <= again.moment
            && Bucket(Step(c, After(c, t0, calls), call).0, call.key)
               == Within(history, call.moment - c.window, call.moment)
  {
    hide Step, After, HistorySinceDrop, NaiveVerdict, Bucket, KeptThrough, Within, Ascending, NoneAfter, Clocked, Clock;
    ClockOfReturn(c, t0, calls, call, others, again);
    AfterDenial(c, t0, calls, call);
    HistoryThroughOthers(c, t0, calls + [call], others, call.key);
    VerdictsAreNaive(c, t0, calls + [call] + others, again);
  }

  /**
   * A caller the limiter denied, coming back at any later moment with any budget, no
   * call of its key and no cap drop in between, is admitted iff fewer hits than the
   * budget were stored at the denial, or the one that must leave for it is by then
   * more than a window old.
   */
  lemma ReturnAdmittedIff(c: Config, t0: real, calls: seq<Call>, call: Call, others: seq<Call>, again: Call)
    requires ComesBack(c, t0, calls, call, others, again)
    ensures var stored := Bucket(Step(c, After(c, t0, calls), call).0, call.key);
            var n := Max(1, again.budget);
            Step(c, After(c, t0, calls + [call] + others), again).1.allowed
            <==> |stored| < n || again.moment - stored[|stored| - n] > c.window
  {
    hide Step, After, HistorySinceDrop, NaiveVerdict, Bucket, ComesBack, Within, Ascending, NoneAfter;
    ReturnSeesSameHistory(c, t0, calls, call, others, again);
    var history := HistorySinceDrop(c, t0, calls, call.key);
    NaiveAllowedIff(history, again, c.window);
    FewerLaterIff(history, call.moment - c.window, call.moment,
                  again.moment - c.window, again.moment, Max(1, again.budget));
  }

  /** The hint is the time the oldest stored hit has left, in seconds rounded up. */
  lemma HintOfDenial(c: Config, t0: real, calls: seq<Call>, call: Call)
    requires Clocked(t0, calls) && Clock(t0, calls) <= call.moment
    requires !Step(c, After(c, t0, calls), call).1.allowed
    ensures var (denied, verdict) := Step(c, After(c, t0, calls), call);
            var stored := Bucket(denied, call.key);
            && stored != [] && |stored| >= Max(1, call.budget) && 0.0 <= call.moment - stored[0] <= c.window
            && verdict.retryAfter == Max(1, Ceil(c.window - (call.moment - stored[0])))
  {
    hide Step, After, HistorySinceDrop, Bucket, Within, Ceil;
    AfterDenial(c, t0, calls, call);
    WithinIsInside(HistorySinceDrop(c, t0, calls, call.key), call.moment - c.window, call.moment);
  }

  /** The hint rounds up to whole seconds, at least one. */
  lemma CeilIsStrictUnlessWhole(x: real)
    requires x >= 0.0
    ensures x < Max(1, Ceil(x)) as real <==> x < 1.0 || x.Floor as real != x
  {
    var n, f := Ceil(x), x.Floor;
    assert f as real <= x < f as real + 1.0;
    if f as real == x {
      assert n == f;
    } else {
      assert n == f + 1;
    }
  }

  /**
   * A caller denied with hint `r` who comes back exactly `r` seconds later with the
   * same budget `n` is admitted exactly when its n-th newest stored hit, the one that
   * must leave for it, had less than `r` seconds left. The hint speaks of the oldest
   * stored hit instead, which is another one when more hits are stored than the
   * budget allows: reads and writes share a key and differ in budget.
   */
  lemma RetryAtHintAdmittedIff(c: Config, t0: real, calls: seq<Call>, call: Call, others: seq<Call>, again: Call)
    requires ComesBack(c, t0, calls, call, others, again) && again.budget == call.budget
    requires again.moment == call.moment + Step(c, After(c, t0, calls), call).1.retryAfter as real
    ensures var stored := Bucket(Step(c, After(c, t0, calls), call).0, call.key);
            var n := Max(1, call.budget);
            && |stored| >= n
            && (Step(c, After(c, t0, calls + [call] + others), again).1.allowed
                <==> c.window - (call.moment - stored[|stored| - n])
                     < Max(1, Ceil(c.window - (call.moment - stored[0]))) as real)
  {
    hide Step, After, Bucket, KeptThrough, Ceil, Clocked, Clock;
    ReturnAdmittedIff(c, t0, calls, call, others, again);
    ClockOfReturn(c, t0, calls, call, others, again);
    HintOfDenial(c, t0, calls, call);
  }

  /**
   * With no more hits stored than the budget allows the hint names the right hit, and
   * coming back after it fails exactly when that hit had a whole number of seconds
   * left, at least one: pruning is strict.
   */
  lemma RetryOnOwnHitAdmittedIff(c: Config, t0: real, calls: seq<Call>, call: Call, others: seq<Call>, again: Call)
    requires ComesBack(c, t0, calls, call, others, again) && again.budget == call.budget
    requires again.moment == call.moment + Step(c, After(c, t0, calls), call).1.retryAfter as real
    ensures var stored := Bucket(Step(c, After(c, t0, calls), call).0, call.key);
            |stored| == Max(1, call.budget) ==>
              var left := c.window - (call.moment - stored[0]);
              Step(c, After(c, t0, calls + [call] + others), again).1.allowed
              <==> left < 1.0 || left.Floor as real != left
  {
    hide Step, After, Bucket, ComesBack, Ceil;
    RetryAtHintAdmittedIff(c, t0, calls, call, others, again);
    HintInWindow(c, t0, calls, call, others, again);
    CeilIsStrictUnlessWhole(c.window - (call.moment - Bucket(Step(c, After(c, t0, calls), call).0, call.key)[0]));
  }

  lemma HintInWindow(c: Config, t0: real, calls: seq<Call>, call: Call, others: seq<Call>, again: Call)
    requires ComesBack(c, t0, calls, call, others, again)
    ensures var stored := Bucket(Step(c, After(c, t0, calls), call).0, call.key);
            stored != [] && 0.0 <= call.moment - stored[0] <= c.window
  {
    hide Step, After, Bucket, KeptThrough, Ceil, Clocked, Clock;
    ClockOfReturn(c, t0, calls, call, others, again);
    HintOfDenial(c, t0, calls, call);
  }

  lemma OneHit(c: Config, k: Key)
    ensures HistorySinceDrop(c, 0.0, [Call(k, 1, 0.0)], k) == [0.0]
  {
    var one := [Call(k, 1, 0.0)];
    assert one[..0] == [];
    assert Swept(c, Empty(0.0), 0.0).order == [];
    assert Within([], 0.0 - c.window, 0.0) == [];
  }

  /** The hint of a run that is one moment too early: denied at 0 with hint 60, denied again at 60. */
  lemma RetryHintCanBeTooEarly(c: Config, k: Key)
    requires c.window == 60.0
    ensures var first := Call(k, 1, 0.0);
            && Step(c, After(c, 0.0, [first]), first).1 == Verdict(false, 60)
            && !Step(c, After(c, 0.0, [first, first]), Call(k, 1, 60.0)).1.allowed
  {
    hide Step, After, HistorySinceDrop;
    var first := Call(k, 1, 0.0);
    OneHit(c, k);
    VerdictsAreNaive(c, 0.0, [first], first);
    HitAtZero(k);
    assert [first] + [first] == [first, first];
    AfterDenial(c, 0.0, [first], first);
    VerdictsAreNaive(c, 0.0, [first, first], Call(k, 1, 60.0));
  }

  lemma HitAtZero(k: Key)
    ensures NaiveVerdict([0.0], Call(k, 1, 0.0), 60.0) == Verdict(false, 60)
    ensures !NaiveVerdict([0.0], Call(k, 1, 60.0), 60.0).allowed
  {
    hide Within;
    WithinAll([0.0], -60.0, 0.0);
    WithinAll([0.0], 0.0, 60.0);
  }

  /** The history of a key grows by each of its calls that the reference admits. */
  lemma HistoryOfOneMore(c: Config, t0: real, calls: seq<Call>, call: Call)
    requires Clocked(t0, calls + [call])
    ensures var history := HistorySinceDrop(c, t0, calls, call.key);
            HistorySinceDrop(c, t0, calls + [call], call.key)
            == if NaiveVerdict(history, call, c.window).allowed then history + [call.moment] else history
  {
    hide Step, Bucket, NaiveVerdict, CapDrops, Covers;
    var history := HistorySinceDrop(c, t0, calls, call.key);
    assert (calls + [call])[..|calls|] == calls;
    ClockedPrefix(t0, calls + [call]);
    AfterIsWf(c, t0, calls);
    BucketsCoverHistory(c, t0, calls, call.key);
    ServedStaysCovered(c, After(c, t0, calls), call, history, Clock(t0, calls));
  }

  /** How the reference judges two reads and a write after them. */
  lemma JudgedOnTwoReads(k: Key)
    ensures NaiveVerdict([], Call(k, 2, 0.5), 60.0).allowed
    ensures NaiveVerdict([0.5], Call(k, 2, 30.0), 60.0).allowed
    ensures NaiveVerdict([0.5, 30.0], Call(k, 1, 40.0), 60.0) == Verdict(false, 21)
    ensures !NaiveVerdict([0.5, 30.0], Call(k, 1, 61.0), 60.0).allowed
  {
    hide Within;
    WithinAll([], -59.5, 0.5);
    WithinAll([0.5], -30.0, 30.0);
    WithinAll([0.5, 30.0], -20.0, 40.0);
    WithinConcat([0.5], [30.0], 1.0, 61.0);
    WithinNone([0.5], 1.0, 61.0);
    WithinAll([30.0], 1.0, 61.0);
    assert [0.5] + [30.0] == [0.5, 30.0];
  }

  lemma HistoryOfFirst(c: Config, first: Call)
    requires first.moment >= 0.0 && NaiveVerdict([], first, c.window).allowed
    ensures HistorySinceDrop(c, 0.0, [first], first.key) == [first.moment]
  {
    hide NaiveVerdict, CapDrops;
    assert HistorySinceDrop(c, 0.0, [], first.key) == [];
    HistoryOfOneMore(c, 0.0, [], first);
    assert [] + [first] == [first];
  }

  lemma HistoryOfTwoReads(c: Config, k: Key)
    requires c.window == 60.0
    ensures HistorySinceDrop(c, 0.0, [Call(k, 2, 0.5), Call(k, 2, 30.0)], k) == [0.5, 30.0]
  {
    hide NaiveVerdict, HistorySinceDrop;
    var first, second := Call(k, 2, 0.5), Call(k, 2, 30.0);
    JudgedOnTwoReads(k);
    HistoryOfFirst(c, first);
    HistoryOfOneMore(c, 0.0, [first], second);
    assert [first] + [second] == [first, second] && [0.5] + [30.0] == [0.5, 30.0];
  }

  /**
   * A write with budget 1 after two reads with budget 2 is denied with the hint 21,
   * what the first read has left, and denied again 21 seconds later: the second read
   * is in the way for 29 more.
   */
  lemma WriteAfterReadsIsMisled(c: Config, k: Key)
    requires c.window == 60.0
    ensures var gets, post := [Call(k, 2, 0.5), Call(k, 2, 30.0)], Call(k, 1, 40.0);
            && Step(c, After(c, 0.0, gets), post).1 == Verdict(false, 21)
            && !Step(c, After(c, 0.0, gets + [post]), Call(k, 1, 61.0)).1.allowed
  {
    hide Step, After, HistorySinceDrop, NaiveVerdict;
    var gets, post := [Call(k, 2, 0.5), Call(k, 2, 30.0)], Call(k, 1, 40.0);
    HistoryOfTwoReads(c, k);
    JudgedOnTwoReads(k);
    VerdictsAreNaive(c, 0.0, gets, post);
    HistoryOfOneMore(c, 0.0, gets, post);
    VerdictsAreNaive(c, 0.0, gets + [post], Call(k, 1, 61.0));
  }

  // ----- what the sweep leaves behind -------------------------------------------------

  /** The last call of `k` was denied (false when there was none). */
  predicate LastDenied(c: Config, t0: real, calls: seq<Call>, k: Key) {
    if calls == [] then false
    else
      var before, call := calls[..|calls| - 1], calls[|calls| - 1];
      if call.key == k then !Step(c, After(c, t0, before), call).1.allowed
      else LastDenied(c, t0, before, k)
  }

  /** The moment of the last call of `k` (the start of the run when there was none). */
  function LastMoment(t0: real, calls: seq<Call>, k: Key): real {
    if calls == [] then t0
    else if calls[|calls| - 1].key == k then calls[|calls| - 1].moment
    else LastMoment(t0, calls[..|calls| - 1], k)
  }

  /** A tracked bucket is never empty; its newest hit is its last call, unless that was denied. */
  ghost predicate NewestHit(bucket: seq<real>, last: real, denied: bool) {
    bucket != [] && (if denied then bucket[|bucket| - 1] <= last else bucket[|bucket| - 1] == last)
  }

  lemma StepNewestHit(c: Config, l: Log, call: Call, last: real, denied: bool)
    requires Wf(l) && last <= call.moment
    requires call.key in l.hits ==> NewestHit(l.hits[call.key], last, denied)
    ensures var (l', verdict) := Step(c, l, call);
            call.key in l'.hits && NewestHit(l'.hits[call.key], call.moment, !verdict.allowed)
  {
    hide Swept, Entered, Pruned;
    StepKeepsWf(c, l, call);
    BucketAtEntry(c, l, call);
    var b := Bucket(Entered(c, Swept(c, l, call.moment), call.key), call.key);
    var cut := PrunedIsSuffix(b, call.moment, c.window);
    assert cut < |b| ==> b[cut..][|b| - cut - 1] == b[|b| - 1];
  }

  lemma StepKeepsOthers(c: Config, l: Log, call: Call, k: Key)
    requires Wf(l) && k != call.key && k in Step(c, l, call).0.hits
    ensures k in l.hits && Step(c, l, call).0.hits[k] == l.hits[k]
  {
    var s := Swept(c, l, call.moment);
    SweptIsWf(c, l, call.moment);
    SweptAt(c, l, call.moment, k);
    EnteredAt(c, s, call.key, k);
    assert k in Entered(c, s, call.key).hits;
    assert Bucket(s, k) == Bucket(l, k);
  }

  lemma {:induction false} BucketsEndAtLastCall(c: Config, t0: real, calls: seq<Call>, k: Key)
    requires Clocked(t0, calls)
    ensures LastMoment(t0, calls, k) <= Clock(t0, calls)
    ensures k in After(c, t0, calls).hits ==>
              NewestHit(After(c, t0, calls).hits[k], LastMoment(t0, calls, k), LastDenied(c, t0, calls, k))
  {
    if calls != [] {
      var before, call := calls[..|calls| - 1], calls[|calls| - 1];
      ClockedPrefix(t0, calls);
      BucketsEndAtLastCall(c, t0, before, k);
      AfterIsWf(c, t0, before);
      if k == call.key {
        StepNewestHit(c, After(c, t0, before), call, LastMoment(t0, before, k), LastDenied(c, t0, before, k));
      } else if k in After(c, t0, calls).hits {
        StepKeepsOthers(c, After(c, t0, before), call, k);
      }
    }
  }

  lemma {:induction false} LaterUseLaterMoment(t0: real, calls: seq<Call>, k: Key, k': Key)
    requires Clocked(t0, calls)
    requires 0 <= LastUse(Keys(calls), k) <= LastUse(Keys(calls), k')
    ensures LastMoment(t0, calls, k) <= LastMoment(t0, calls, k') <= Clock(t0, calls)
  {
    if calls != [] {
      var before, call := calls[..|calls| - 1], calls[|calls| - 1];
      ClockedPrefix(t0, calls);
      LastUseOfAppend(Keys(before), call.key);
      if k != call.key && k' != call.key {
        LaterUseLaterMoment(t0, before, k, k');
      } else if k != call.key {
        LaterUseLaterMoment(t0, before, k, k);
      }
    }
  }

  /**
   * The sweep stops at the first live key on the grounds that everything behind
   * it is live too. A dead key behind a live one exists only if that key's last
   * call was denied: a denial moves the key to the end without giving it a hit.
   */
  lemma DeadBehindLiveWasDenied(c: Config, t0: real, calls: seq<Call>, now: real, i: nat, j: nat)
    requires Clocked(t0, calls) && i < j < |After(c, t0, calls).order|
    requires var l := After(c, t0, calls);
             && !Dead(Bucket(l, l.order[i]), now, c.window)
             && Dead(Bucket(l, l.order[j]), now, c.window)
    ensures LastDenied(c, t0, calls, After(c, t0, calls).order[j])
  {
    var order := After(c, t0, calls).order;
    AfterIsWf(c, t0, calls);
    OrderIsByLastCall(c, t0, calls);
    BucketsEndAtLastCall(c, t0, calls, order[i]);
    BucketsEndAtLastCall(c, t0, calls, order[j]);
    LaterUseLaterMoment(t0, calls, order[i], order[j]);
  }

  /** A key is dead to the sweep exactly when its last admitted hit is older than the window. */
  lemma DeadIffLastHitIsOld(c: Config, t0: real, calls: seq<Call>, now: real, k: Key)
    requires Clocked(t0, calls) && Clock(t0, calls) <= now
    ensures Dead(Bucket(After(c, t0, calls), k), now, c.window)
            <==> Dead(HistorySinceDrop(c, t0, calls, k), now, c.window)
  {
    hide After, HistorySinceDrop;
    BucketsCoverHistory(c, t0, calls, k);
    var full, kept := HistorySinceDrop(c, t0, calls, k), Bucket(After(c, t0, calls), k);
    assert kept != [] ==> kept[|kept| - 1] == full[|full| - 1];
  }

  /**
   * Exactly when a key behind a live one is dead: its last call was denied and its
   * last admitted hit is older than the window.
   */
  lemma DeadBehindLiveIff(c: Config, t0: real, calls: seq<Call>, now: real, i: nat, j: nat)
    requires Clocked(t0, calls) && Clock(t0, calls) <= now && i < j < |After(c, t0, calls).order|
    requires var l := After(c, t0, calls); !Dead(Bucket(l, l.order[i]), now, c.window)
    ensures var l := After(c, t0, calls);
            var k := l.order[j];
            Dead(Bucket(l, k), now, c.window)
            <==> LastDenied(c, t0, calls, k) && Dead(HistorySinceDrop(c, t0, calls, k), now, c.window)
  {
    hide After, LastDenied, HistorySinceDrop, Dead;
    var l := After(c, t0, calls);
    DeadIffLastHitIsOld(c, t0, calls, now, l.order[j]);
    if Dead(Bucket(l, l.order[j]), now, c.window) {
      DeadBehindLiveWasDenied(c, t0, calls, now, i, j);
    }
  }

  /**
   * What a call's sweep drops, told by the buckets: nothing before the interval is over,
   * and then keys from the front without a hit in the window, up to the first key with
   * one, but no more than 1024.
   */
  lemma SweepDropsDeadFront(c: Config, l: Log, now: real) returns (n: nat)
    requires Wf(l)
    ensures n <= |l.order| && n <= 1024
    ensures var s := Swept(c, l, now);
            && s.order == l.order[n..]
            && s.lastSweep == (if now - l.lastSweep < c.sweepInterval then l.lastSweep else now)
            && (forall k :: k in s.hits ==> k in l.hits && s.hits[k] == l.hits[k])
    ensures now - l.lastSweep < c.sweepInterval ==> n == 0
    ensures forall i :: 0 <= i < n ==>
              var b := Bucket(l, l.order[i]); b == [] || b[|b| - 1] < now - c.window
    ensures now - l.lastSweep >= c.sweepInterval && n < |l.order| && n < 1024 ==>
              var b := Bucket(l, l.order[n]); b != [] && b[|b| - 1] >= now - c.window
  {
    hide DeadRun;
    n := if now - l.lastSweep < c.sweepInterval then 0 else DeadRun(l.order, l, now, c.window, SWEEP_SCAN);
  }

  /** A key the sweep would have to drop although it stands behind a live one. */
  ghost predicate LeftBehind(c: Config, t0: real, calls: seq<Call>, now: real, k: Key) {
    LastDenied(c, t0, calls, k) && Dead(HistorySinceDrop(c, t0, calls, k), now, c.window)
  }

  lemma SweptHolds(c: Config, l: Log, now: real)
    requires Wf(l) && now - l.lastSweep >= c.sweepInterval
    ensures var n := DeadRun(l.order, l, now, c.window, SWEEP_SCAN);
            (forall k :: k in Swept(c, l, now).hits ==> !Dead(Bucket(Swept(c, l, now), k), now, c.window))
            <==> forall j :: n <= j < |l.order| ==> !Dead(Bucket(l, l.order[j]), now, c.window)
  {
    hide Dead, DeadRun;
    var n, s := DeadRun(l.order, l, now, c.window, SWEEP_SCAN), Swept(c, l, now);
    var rest := l.order[n..];
    forall j | n <= j < |l.order|
      ensures l.order[j] in s.hits && Bucket(s, l.order[j]) == Bucket(l, l.order[j])
    {
      assert rest[j - n] == l.order[j] && l.order[j] in l.order;
    }
    forall k | k in s.hits
      ensures exists j :: n <= j < |l.order| && l.order[j] == k
    {
      var m :| 0 <= m < |rest| && rest[m] == k;
      assert l.order[n + m] == k;
    }
  }

  /**
   * Exactly when a due sweep leaves no dead key: the first key it does not drop is
   * live (only the limit of 1024 keys can make it stop at a dead one), and no key
   * behind that one was denied last with its last admitted hit older than the window.
   */
  lemma SweepLeavesNoDeadKeyIff(c: Config, t0: real, calls: seq<Call>, now: real)
    requires Clocked(t0, calls) && Clock(t0, calls) <= now
    requires now - After(c, t0, calls).lastSweep >= c.sweepInterval
    ensures var l := After(c, t0, calls);
            var n, s := DeadRun(l.order, l, now, c.window, SWEEP_SCAN), Swept(c, l, now);
            (forall k :: k in s.hits ==> !Dead(Bucket(s, k), now, c.window))
            <==> (n < |l.order| ==> !Dead(HistorySinceDrop(c, t0, calls, l.order[n]), now, c.window))
                 && forall j :: n < j < |l.order| ==> !LeftBehind(c, t0, calls, now, l.order[j])
  {
    hide After, LastDenied, HistorySinceDrop, Dead, Swept;
    var l := After(c, t0, calls);
    var n := DeadRun(l.order, l, now, c.window, SWEEP_SCAN);
    AfterIsWf(c, t0, calls);
    SweptHolds(c, l, now);
    if n < |l.order| {
      DeadIffLastHitIsOld(c, t0, calls, now, l.order[n]);
      if !Dead(Bucket(l, l.order[n]), now, c.window) {
        forall j | n < j < |l.order|
          ensures Dead(Bucket(l, l.order[j]), now, c.window) <==> LeftBehind(c, t0, calls, now, l.order[j])
        {
          DeadBehindLiveIff(c, t0, calls, now, n, j);
        }
      }
    }
  }

  lemma FirstCall(c: Config, l: Log, call: Call)
    requires Wf(l) && call.key !in l.hits && |l.order| < c.maxKeys
    requires call.moment - l.lastSweep < c.sweepInterval
    ensures Step(c, l, call)
         == (Log(l.order + [call.key], l.hits[call.key := [call.moment]], l.lastSweep), Verdict(true, 0))
  {
    CutNone(Inserted(l, call.key));
    assert [] + [call.moment] == [call.moment];
    assert l.hits[call.key := []][call.key := [call.moment]] == l.hits[call.key := [call.moment]];
  }

  lemma DeniedCall(c: Config, l: Log, call: Call)
    requires Wf(l) && call.key in l.hits && call.moment - l.lastSweep < c.sweepInterval
    requires call.budget == |l.hits[call.key]| >= 1 && call.moment - l.hits[call.key][0] <= c.window
    ensures Step(c, l, call).0 == Log(Touch(l.order, call.key), l.hits, l.lastSweep)
  {
    assert l.hits[call.key := l.hits[call.key]] == l.hits;
  }

  lemma AfterThreeCalls(c: Config, t0: real, x: Call, y: Call, z: Call)
    ensures After(c, t0, [x, y, z]) == Step(c, Step(c, Step(c, Empty(t0), x).0, y).0, z).0
  {
    hide Step;
    assert [x][..0] == [];
    assert After(c, t0, [x]) == Step(c, Empty(t0), x).0;
    assert [x, y][..1] == [x];
    assert After(c, t0, [x, y]) == Step(c, After(c, t0, [x]), y).0;
    assert [x, y, z][..2] == [x, y];
  }

  lemma FirstAdmission(c: Config, b: Key)
    requires c.sweepInterval == 60.0
    ensures Step(c, Empty(0.0), Call(b, 1, 0.0)).0 == Log([b], map[b := [0.0]], 0.0)
  {
    FirstCall(c, Empty(0.0), Call(b, 1, 0.0));
    assert Empty(0.0).order + [b] == [b];
  }

  lemma SecondAdmission(c: Config, a: Key, b: Key)
    requires a != b && c.sweepInterval == 60.0
    ensures Step(c, Log([b], map[b := [0.0]], 0.0), Call(a, 1, 50.0)).0
            == Log([b, a], map[b := [0.0], a := [50.0]], 0.0)
  {
    FirstCall(c, Log([b], map[b := [0.0]], 0.0), Call(a, 1, 50.0));
  }

  lemma SecondDenial(c: Config, a: Key, b: Key)
    requires a != b && c.window == 60.0 && c.sweepInterval == 60.0
    ensures Step(c, Log([b, a], map[b := [0.0], a := [50.0]], 0.0), Call(b, 1, 55.0)).0
            == Log([a, b], map[b := [0.0], a := [50.0]], 0.0)
  {
    DeniedCall(c, Log([b, a], map[b := [0.0], a := [50.0]], 0.0), Call(b, 1, 55.0));
    assert Touch([b, a], b) == [a, b];
  }

  lemma DenialMovesToEnd(c: Config, a: Key, b: Key)
    requires a != b && c.window == 60.0 && c.sweepInterval == 60.0
    ensures After(c, 0.0, [Call(b, 1, 0.0), Call(a, 1, 50.0), Call(b, 1, 55.0)])
         == Log([a, b], map[b := [0.0], a := [50.0]], 0.0)
  {
    FirstAdmission(c, b);
    SecondAdmission(c, a, b);
    SecondDenial(c, a, b);
    AfterThreeCalls(c, 0.0, Call(b, 1, 0.0), Call(a, 1, 50.0), Call(b, 1, 55.0));
  }

  /** Such a key does occur: after these three calls the sweep due at 105 leaves dead `b` in the map. */
  lemma SweepCanLeaveDeadKeys(c: Config, a: Key, b: Key)
    requires a != b && c.window == 60.0 && c.sweepInterval == 60.0
    ensures var l := After(c, 0.0, [Call(b, 1, 0.0), Call(a, 1, 50.0), Call(b, 1, 55.0)]);
            && l.order == [a, b]
            && Swept(c, l, 105.0).order == [a, b]
            && Dead(Bucket(Swept(c, l, 105.0), b), 105.0, c.window)
  {
    DenialMovesToEnd(c, a, b);
    SweepStopsAtOnce(c, Log([a, b], map[b := [0.0], a := [50.0]], 0.0), 105.0);
  }

  lemma SweepStopsAtOnce(c: Config, l: Log, now: real)
    requires Wf(l) && l.order != [] && !Dead(Bucket(l, l.order[0]), now, c.window)
    ensures Swept(c, l, now).order == l.order && Swept(c, l, now).hits == l.hits
  {
    CutNone(l);
  }

  // ----- in place ---------------------------------------------------------------------

  class SlidingWindowLog {
    const config: Config
    var order: seq<Key>
    var hits: map<Key, seq<real>>
    var lastSweep: real
    var decisions: nat
    var denials: nat
    var evictions: nat
    var expiredKeys: nat
    var sweeps: nat

    constructor (maxKeys: int, window: real, sweepInterval: real, now: real)
      ensures config.maxKeys == Max(16, maxKeys)
      ensures config.window == if window < 1.0 then 1.0 else window
      ensures config.sweepInterval == if sweepInterval < 1.0 then 1.0 else sweepInterval
      ensures View() == Empty(now)
      ensures decisions == denials == evictions == expiredKeys == sweeps == 0
    {
      config := Config(Max(16, maxKeys),
                       if window < 1.0 then 1.0 else window,
                       if sweepInterval < 1.0 then 1.0 else sweepInterval);
      order, hits, lastSweep := [], map[], now;
      decisions, denials, evictions, expiredKeys, sweeps := 0, 0, 0, 0, 0;
    }

    function View(): Log
      reads this
    {
      Log(order, hits, lastSweep)
    }

    /** Keys ever inserted, as the counters tell it. */
    function Inserts(): nat
      reads this
    {
      |order| + evictions + expiredKeys
    }

    /** `popitem(last=False)`, the `i`-th one counted from `start`. */
    method PopFront(ghost start: Log, ghost i: nat)
      requires Wf(start) && i < |start.order| && View() == Cut(start, i)
      modifies this`order, this`hits
      ensures View() == Cut(start, i + 1)
    {
      CutFront(start, i);
      order, hits := order[1..], hits - {order[0]};
    }

    /** Drop the front key if its window has fully elapsed. */
    method PopIfDead(key: Key, now: real, ghost start: Log, ghost i: nat) returns (dead: bool)
      requires Wf(start) && i < |start.order| && View() == Cut(start, i)
      requires key == start.order[i]
      modifies this`order, this`hits, this`expiredKeys
      ensures dead <==> Dead(Bucket(start, key), now, config.window)
      ensures View() == Cut(start, if dead then i + 1 else i)
      ensures expiredKeys == old(expiredKeys) + if dead then 1 else 0
    {
      CutFront(start, i);
      var bucket := hits[key];
      if bucket != [] && now - bucket[|bucket| - 1] <= config.window {
        return false;
      }
      PopFront(start, i);
      expiredKeys := expiredKeys + 1;
      return true;
    }

    method DropDeadKeys(now: real)
      requires Wf(View())
      modifies this`order, this`hits, this`expiredKeys
      ensures View() == DeadDropped(config, old(View()), now)
      ensures |order| + expiredKeys == old(|order| + expiredKeys)
    {
      hide Wf, Dead, Bucket;
      ghost var start := View();
      ghost var run := DeadRun(order, start, now, config.window, SWEEP_SCAN);
      CutNone(start);
      var snapshot := if |order| <= SWEEP_SCAN then order else order[..SWEEP_SCAN];
      var i := 0;
      while i < |snapshot|
        invariant i <= |snapshot| && i <= run && View() == Cut(start, i)
        invariant expiredKeys == old(expiredKeys) + i
      {
        var dead := PopIfDead(snapshot[i], now, start, i);
        if !dead {
          break;
        }
        i := i + 1;
      }
    }

    method Sweep(now: real)
      requires Wf(View())
      modifies this`order, this`hits, this`lastSweep, this`expiredKeys, this`sweeps
      ensures Wf(View()) && View() == Swept(config, old(View()), now)
      ensures |order| + expiredKeys == old(|order| + expiredKeys)
    {
      ghost var before := View();
      SweptIsWf(config, before, now);
      if now - lastSweep < config.sweepInterval {
        return;
      }
      SweptIsCut(config, before, now);
      lastSweep, sweeps := now, sweeps + 1;
      assert View() == before.(lastSweep := now);
      DropDeadKeys(now);
    }

    method EvictOverCap()
      requires Wf(View())
      modifies this`order, this`hits, this`evictions
      ensures View() == Capped(config, old(View()))
      ensures Inserts() == old(Inserts())
    {
      ghost var start, i := View(), 0;
      CutNone(start);
      while |order| > config.maxKeys
        invariant i <= |start.order| && View() == Cut(start, i)
        invariant i > 0 ==> |order| >= config.maxKeys
        invariant Inserts() == old(Inserts())
      {
        PopFront(start, i);
        evictions := evictions + 1;
        i := i + 1;
      }
    }

    static method PopExpired(hits: seq<real>, moment: real, window: real) returns (live: seq<real>)
      ensures live == Pruned(hits, moment, window)
    {
      live := hits;
      while live != [] && moment - live[0] > window
        invariant Pruned(live, moment, window) == Pruned(hits, moment, window)
        decreases |live|
      {
        live := live[1..];
      }
    }

    method Enter(key: Key)
      requires Wf(View())
      modifies this`order, this`hits, this`evictions
      ensures Wf(View()) && key in hits
      ensures View() == Entered(config, old(View()), key)
      ensures Inserts() == old(Inserts()) + (if old(key in hits) then 0 else 1)
    {
      hide Capped, Without;
      EnteredIsWf(config, View(), key);
      if key !in hits {
        order, hits := order + [key], hits[key := []];
        EvictOverCap();
      } else {
        TouchIsDistinct(order, key);
        order := Touch(order, key);
      }
    }

    /** Record a hit for `key`; `retryAfter` is in seconds. */
    method Allow(key: Key, budget: int, moment: real) returns (allowed: bool, retryAfter: int)
      requires Wf(View())
      modifies this
      ensures Wf(View())
      ensures (View(), Verdict(allowed, retryAfter)) == Step(config, old(View()), Call(key, budget, moment))
      ensures decisions == old(decisions) + 1 && denials == old(denials) + (if allowed then 0 else 1)
      ensures old(Inserts()) <= Inserts() <= old(Inserts()) + 1
    {
      hide Swept, Entered, Decided;
      decisions := decisions + 1;
      Locate(key, moment);
      allowed, retryAfter := Decide(key, budget, moment);
    }

    method Locate(key: Key, moment: real)
      requires Wf(View())
      modifies this`order, this`hits, this`lastSweep, this`expiredKeys, this`sweeps, this`evictions
      ensures Wf(View()) && key in hits
      ensures View() == Entered(config, Swept(config, old(View()), moment), key)
      ensures old(Inserts()) <= Inserts() <= old(Inserts()) + 1
    {
      Sweep(moment);
      Enter(key);
    }

    method Decide(key: Key, budget: int, moment: real) returns (allowed: bool, retryAfter: int)
      requires Wf(View()) && key in hits
      modifies this`hits, this`denials
      ensures Wf(View())
      ensures (View(), Verdict(allowed, retryAfter)) == Decided(config, old(View()), Call(key, budget, moment))
      ensures denials == old(denials) + (if allowed then 0 else 1)
    {
      var bucket := PopExpired(hits[key], moment, config.window);
      if |bucket| >= Max(1, budget) {
        hits := hits[key := bucket];
        denials := denials + 1;
        return false, Max(1, Ceil(config.window - (moment - bucket[0])));
      }
      hits := hits[key := bucket + [moment]];
      return true, 0;
    }
  }

  lemma CutNone(l: Log)
    requires Wf(l)
    ensures Cut(l, 0) == l
  {
    assert l.order[0..] == l.order;
  }

  lemma SplitSuffix(order: seq<Key>, i: nat)
    requires Distinct(order) && i < |order|
    ensures order[i..] == [order[i]] + order[i + 1..] && order[i] !in order[i + 1..]
  {
  }

  lemma CutFront(l: Log, i: nat)
    requires Wf(l) && i < |l.order|
    ensures var cut := Cut(l, i);
            && cut.order[0] == l.order[i] && l.order[i] in cut.hits
            && cut.hits[l.order[i]] == Bucket(l, l.order[i])
            && Cut(l, i + 1).order == cut.order[1..]
            && Cut(l, i + 1).hits == cut.hits - {l.order[i]}
  {
    hide Distinct;
    SplitSuffix(l.order, i);
    assert l.order[i] in l.order;
  }

  lemma SweptIsCut(c: Config, l: Log, now: real)
    requires Wf(l) && now - l.lastSweep >= c.sweepInterval
    ensures var start := l.(lastSweep := now);
            Swept(c, l, now) == DeadDropped(c, start, now)
  {
    DeadRunSame(l, l.(lastSweep := now), l.order, now, c.window, SWEEP_SCAN);
  }

  lemma {:induction false} DeadRunSame(l: Log, l': Log, order: seq<Key>, now: real, window: real, limit: nat)
    requires l'.hits == l.hits
    ensures DeadRun(order, l', now, window, limit) == DeadRun(order, l, now, window, limit)
    decreases limit
  {
    if limit != 0 && order != [] {
      DeadRunSame(l, l', order[1..], now, window, limit - 1);
    }
  }
}
