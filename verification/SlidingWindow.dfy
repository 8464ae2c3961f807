/**
 * Timestamp logs and the window that slides over them. Both limiters keep a
 * pruned deque; the theory here relates such a deque to the log that forgets
 * nothing.
 */
module SlidingWindow {

  ghost predicate Ascending(hits: seq<real>) {
    forall i, j :: 0 <= i < j < |hits| ==> hits[i] <= hits[j]
  }

  ghost predicate NoneAfter(hits: seq<real>, clock: real) {
    forall i :: 0 <= i < |hits| ==> hits[i] <= clock
  }

  lemma AscendingAppend(hits: seq<real>, clock: real, hit: real)
    requires Ascending(hits) && NoneAfter(hits, clock) && clock <= hit
    ensures Ascending(hits + [hit]) && NoneAfter(hits + [hit], hit)
  {
  }

  /** What is left after popping from the left while the head is older than `window`. */
  function Pruned(hits: seq<real>, now: real, window: real): seq<real> {
    if hits != [] && now - hits[0] > window then Pruned(hits[1..], now, window) else hits
  }

  /** The hits in the closed interval `[from, to]`, in log order. */
  function Within(hits: seq<real>, from: real, to: real): seq<real> {
    if hits == [] then []
    else
      var before := Within(hits[..|hits| - 1], from, to);
      var last := hits[|hits| - 1];
      if from <= last <= to then before + [last] else before
  }

  /**
   * `kept` is the part of `full` a pruning log may still need at `clock`: a
   * suffix of it, everything before being older than the window.
   */
  ghost predicate Covers(full: seq<real>, kept: seq<real>, clock: real, window: real) {
    && |kept| <= |full|
    && kept == full[|full| - |kept|..]
    && forall i :: 0 <= i < |full| - |kept| ==> clock - full[i] > window
  }

  lemma {:induction false} WithinConcat(a: seq<real>, b: seq<real>, from: real, to: real)
    ensures Within(a + b, from, to) == Within(a, from, to) + Within(b, from, to)
  {
    if b == [] {
      assert a + b == a;
    } else {
      assert (a + b)[..|a + b| - 1] == a + b[..|b| - 1];
      WithinConcat(a, b[..|b| - 1], from, to);
    }
  }

  lemma {:induction false} WithinAll(hits: seq<real>, from: real, to: real)
    requires forall i :: 0 <= i < |hits| ==> from <= hits[i] <= to
    ensures Within(hits, from, to) == hits
  {
    if hits != [] {
      WithinAll(hits[..|hits| - 1], from, to);
    }
  }

  lemma {:induction false} WithinNone(hits: seq<real>, from: real, to: real)
    requires forall i :: 0 <= i < |hits| ==> !(from <= hits[i] <= to)
    ensures Within(hits, from, to) == []
  {
    if hits != [] {
      WithinNone(hits[..|hits| - 1], from, to);
    }
  }

  /** Widening the interval can only add hits. */
  lemma {:induction false} WithinIsMonotone(hits: seq<real>, from: real, to: real, from': real, to': real)
    requires from' <= from && to <= to'
    ensures |Within(hits, from, to)| <= |Within(hits, from', to')|
  {
    if hits != [] {
      WithinIsMonotone(hits[..|hits| - 1], from, to, from', to');
    }
  }

  /** Pruning drops expired hits only, so it preserves the coverage of the full log. */
  lemma {:induction false} CoversPruned(full: seq<real>, kept: seq<real>, clock: real, now: real, window: real)
    requires Covers(full, kept, clock, window)
    requires clock <= now
    ensures Covers(full, Pruned(kept, now, window), now, window)
    decreases |kept|
  {
    if kept != [] && now - kept[0] > window {
      assert kept[0] == full[|full| - |kept|];
      assert kept[1..] == full[|full| - |kept[1..]|..];
      assert Covers(full, kept[1..], now, window);
      CoversPruned(full, kept[1..], now, now, window);
    }
  }

  lemma CoversAppend(full: seq<real>, kept: seq<real>, clock: real, window: real, hit: real)
    requires Covers(full, kept, clock, window)
    ensures Covers(full + [hit], kept + [hit], clock, window)
  {
  }

  lemma CoversLater(full: seq<real>, kept: seq<real>, clock: real, now: real, window: real)
    requires Covers(full, kept, clock, window) && clock <= now
    ensures Covers(full, kept, now, window)
  {
  }

  /** Once the newest hit has left the window, nothing needs to be kept. */
  lemma CoversDead(full: seq<real>, kept: seq<real>, clock: real, now: real, window: real)
    requires Covers(full, kept, clock, window) && clock <= now && Ascending(full)
    requires kept == [] || now - kept[|kept| - 1] > window
    ensures Covers(full, [], now, window)
  {
    if kept != [] {
      assert kept[|kept| - 1] == full[|full| - 1];
    }
  }

  lemma WithinSuffix(gone: seq<real>, live: seq<real>, from: real, to: real)
    requires forall i :: 0 <= i < |gone| ==> gone[i] < from
    requires forall i :: 0 <= i < |live| ==> from <= live[i] <= to
    ensures Within(gone + live, from, to) == live
  {
    WithinConcat(gone, live, from, to);
    WithinNone(gone, from, to);
    WithinAll(live, from, to);
  }

  lemma LiveSuffix(full: seq<real>, cut: nat, now: real, window: real)
    requires Ascending(full) && NoneAfter(full, now) && cut <= |full|
    requires forall i :: 0 <= i < cut ==> now - full[i] > window
    requires cut < |full| ==> now - full[cut] <= window
    ensures Within(full, now - window, now) == full[cut..]
  {
    WithinSuffix(full[..cut], full[cut..], now - window, now);
    assert full == full[..cut] + full[cut..];
  }

  /** The pruned deque holds exactly the hits of the full log in `[now - window, now]`. */
  lemma PrunedIsWithin(full: seq<real>, kept: seq<real>, clock: real, now: real, window: real)
    requires Covers(full, kept, clock, window)
    requires Ascending(full) && NoneAfter(full, now) && clock <= now
    ensures Pruned(kept, now, window) == Within(full, now - window, now)
  {
    CoversPruned(full, kept, clock, now, window);
    PrunedHead(kept, now, window);
    var cut := |full| - |Pruned(kept, now, window)|;
    assert cut < |full| ==> Pruned(kept, now, window)[0] == full[cut];
    LiveSuffix(full, cut, now, window);
  }

  lemma {:induction false} PrunedIsSuffix(hits: seq<real>, now: real, window: real) returns (n: nat)
    ensures n <= |hits| && Pruned(hits, now, window) == hits[n..]
    ensures n < |hits| ==> now - hits[n] <= window
    decreases |hits|
  {
    if hits != [] && now - hits[0] > window {
      var rest := hits[1..];
      var k := PrunedIsSuffix(rest, now, window);
      n := k + 1;
      assert rest[k..] == hits[n..];
    } else {
      n := 0;
    }
  }

  lemma PrunedHead(hits: seq<real>, now: real, window: real)
    ensures Pruned(hits, now, window) != [] ==> now - Pruned(hits, now, window)[0] <= window
    ensures |Pruned(hits, now, window)| <= |hits|
  {
    var n := PrunedIsSuffix(hits, now, window);
  }

  // ----- how many hits fit into an interval -------------------------------

  /** Narrowing the interval twice is narrowing it once. */
  lemma {:induction false} WithinOfWithin(hits: seq<real>, from: real, to: real, from': real, to': real)
    requires from <= from' && NoneAfter(hits, to) && to <= to'
    ensures Within(Within(hits, from, to), from', to') == Within(hits, from', to')
  {
    if hits != [] {
      WithinOfWithin(hits[..|hits| - 1], from, to, from', to');
      WithinConcat(Within(hits[..|hits| - 1], from, to), [hits[|hits| - 1]], from', to');
    }
  }

  lemma {:induction false} WithinKeepsOrder(hits: seq<real>, from: real, to: real)
    requires Ascending(hits)
    ensures Ascending(Within(hits, from, to))
    ensures forall i :: 0 <= i < |Within(hits, from, to)| ==> Within(hits, from, to)[i] in hits
    ensures NoneAfter(Within(hits, from, to), to)
  {
    if hits != [] {
      WithinKeepsOrder(hits[..|hits| - 1], from, to);
    }
  }

  lemma {:induction false} WithinIsInside(hits: seq<real>, from: real, to: real)
    ensures forall i :: 0 <= i < |Within(hits, from, to)| ==> from <= Within(hits, from, to)[i] <= to
  {
    if hits != [] {
      WithinIsInside(hits[..|hits| - 1], from, to);
    }
  }

  /** In an ascending log, fewer than `n` hits reach `from` iff the n-th newest does not. */
  lemma FewerThan(hits: seq<real>, from: real, to: real, n: nat)
    requires Ascending(hits) && NoneAfter(hits, to)
    requires 1 <= n <= |hits|
    ensures |Within(hits, from, to)| < n <==> hits[|hits| - n] < from
  {
    hide Within, Ascending, NoneAfter;
    if hits[|hits| - n] < from {
      FewerWhenGone(hits, from, to, n);
    } else {
      EnoughWhenLive(hits, from, to, n);
    }
  }

  lemma FewerWhenGone(hits: seq<real>, from: real, to: real, n: nat)
    requires Ascending(hits) && 1 <= n <= |hits| && hits[|hits| - n] < from
    ensures |Within(hits, from, to)| < n
  {
    hide Within;
    var cut := |hits| - n;
    var older, recent := hits[..cut + 1], hits[cut + 1..];
    assert hits == older + recent;
    forall i | 0 <= i < |older|
      ensures older[i] < from
    {
      assert older[i] == hits[i] <= hits[cut];
    }
    WithinConcat(older, recent, from, to);
    WithinNone(older, from, to);
    WithinLength(recent, from, to);
  }

  lemma EnoughWhenLive(hits: seq<real>, from: real, to: real, n: nat)
    requires Ascending(hits) && NoneAfter(hits, to) && 1 <= n <= |hits| && from <= hits[|hits| - n]
    ensures |Within(hits, from, to)| >= n
  {
    hide Within;
    var cut := |hits| - n;
    var recent := hits[cut..];
    assert hits == hits[..cut] + recent;
    forall i | 0 <= i < |recent|
      ensures from <= recent[i] <= to
    {
      assert recent[i] == hits[cut + i] && hits[cut] <= hits[cut + i];
    }
    WithinConcat(hits[..cut], recent, from, to);
    WithinAll(recent, from, to);
  }

  /** The same, when the window has moved on from `[from, to]` to `[from', to']`. */
  lemma FewerThanOfWithin(hits: seq<real>, from: real, to: real, from': real, to': real, n: nat)
    requires Ascending(hits) && NoneAfter(hits, to) && from <= from' && to <= to'
    requires 1 <= n <= |Within(hits, from, to)|
    ensures |Within(hits, from', to')| < n
       <==> Within(hits, from, to)[|Within(hits, from, to)| - n] < from'
  {
    WithinKeepsOrder(hits, from, to);
    WithinOfWithin(hits, from, to, from', to');
    NoneAfterLater(Within(hits, from, to), to, to');
    FewerThan(Within(hits, from, to), from', to', n);
  }

  lemma NoneAfterLater(hits: seq<real>, clock: real, clock': real)
    requires NoneAfter(hits, clock) && clock <= clock'
    ensures NoneAfter(hits, clock')
  {
  }

  lemma {:induction false} WithinLength(hits: seq<real>, from: real, to: real)
    ensures |Within(hits, from, to)| <= |hits|
  {
    if hits != [] {
      WithinLength(hits[..|hits| - 1], from, to);
    }
  }

  /** Index of the last hit in `[from, to]`, -1 when there is none. */
  function LastWithin(hits: seq<real>, from: real, to: real): (i: int)
    ensures -1 <= i < |hits|
    ensures i >= 0 ==> from <= hits[i] <= to
    ensures forall j :: i < j < |hits| ==> !(from <= hits[j] <= to)
  {
    if hits == [] then -1
    else if from <= hits[|hits| - 1] <= to then |hits| - 1
    else LastWithin(hits[..|hits| - 1], from, to)
  }

  /** Each hit was admitted with fewer hits in the window before it than its limit. */
  ghost predicate AdmittedUnder(hits: seq<real>, limits: seq<int>, window: real) {
    && |hits| == |limits|
    && (hits != [] ==>
          var before, last := hits[..|hits| - 1], hits[|hits| - 1];
          && AdmittedUnder(before, limits[..|hits| - 1], window)
          && |Within(before, last - window, last)| < limits[|hits| - 1])
  }

  lemma AdmittedAppend(hits: seq<real>, limits: seq<int>, window: real, hit: real, limit: int)
    requires AdmittedUnder(hits, limits, window)
    requires |Within(hits, hit - window, hit)| < limit
    ensures AdmittedUnder(hits + [hit], limits + [limit], window)
  {
    assert (hits + [hit])[..|hits|] == hits && (limits + [limit])[..|hits|] == limits;
  }

  lemma {:induction false} AdmittedAt(hits: seq<real>, limits: seq<int>, window: real, i: nat)
    requires AdmittedUnder(hits, limits, window) && i < |hits|
    ensures |Within(hits[..i], hits[i] - window, hits[i])| < limits[i]
  {
    if i < |hits| - 1 {
      AdmittedAt(hits[..|hits| - 1], limits[..|hits| - 1], window, i);
      assert hits[..|hits| - 1][..i] == hits[..i];
    }
  }

  /**
   * If every hit was admitted under its limit, then a closed interval no longer
   * than the window holds at most as many hits as the limit of its last one.
   */
  lemma WindowBound(hits: seq<real>, limits: seq<int>, window: real, from: real, to: real)
    requires AdmittedUnder(hits, limits, window) && Ascending(hits)
    requires to - from <= window
    ensures var last := LastWithin(hits, from, to);
            if last < 0 then Within(hits, from, to) == []
            else |Within(hits, from, to)| <= limits[last]
  {
    var last := LastWithin(hits, from, to);
    if last < 0 {
      WithinNone(hits, from, to);
    } else {
      AdmittedAt(hits, limits, window, last);
      WithinEndsAt(hits, last, from, to);
      assert NoneAfter(hits[..last], hits[last]);
      WithinUpTo(hits[..last], from, to, hits[last], window);
    }
  }

  lemma WithinEndsAt(hits: seq<real>, last: nat, from: real, to: real)
    requires last < |hits| && from <= hits[last] <= to
    requires forall j :: last < j < |hits| ==> !(from <= hits[j] <= to)
    ensures |Within(hits, from, to)| == |Within(hits[..last], from, to)| + 1
  {
    var upto, rest := hits[..last + 1], hits[last + 1..];
    assert hits == upto + rest;
    WithinConcat(upto, rest, from, to);
    WithinNone(rest, from, to);
    assert upto[..last] == hits[..last];
  }

  /** Before the last hit of the interval, the interval saw no more than the window did. */
  lemma WithinUpTo(hits: seq<real>, from: real, to: real, last: real, window: real)
    requires from <= last <= to && to - from <= window
    requires NoneAfter(hits, last)
    ensures |Within(hits, from, to)| <= |Within(hits, last - window, last)|
  {
    WithinCut(hits, from, to, last);
    WithinIsMonotone(hits, from, last, last - window, last);
  }

  lemma {:induction false} WithinCut(hits: seq<real>, from: real, to: real, last: real)
    requires last <= to && NoneAfter(hits, last)
    ensures Within(hits, from, to) == Within(hits, from, last)
  {
    if hits != [] {
      WithinCut(hits[..|hits| - 1], from, to, last);
    }
  }
}
