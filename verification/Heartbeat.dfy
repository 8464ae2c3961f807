/**
 * The lease heartbeat of a running item, on the clock: how often it renews, and
 * why a run whose beats land in time is never taken over by the reaper.
 */
module Heartbeat {
  import opened LeaseQueue
  import opened Wrappers

  function MaxOf(a: real, b: real): real {
    if a > b then a else b
  }

  function MinOf(a: real, b: real): real {
    if a < b then a else b
  }

  /** `worker_lease_seconds` as the heartbeat reads it: zero means the default. */
  function LeaseSeconds(setting: real): real {
    MaxOf(1.0, if setting == 0.0 then 120.0 else setting)
  }

  /** `_heartbeat_interval` */
  function Interval(configured: real, leaseSetting: real): real {
    MaxOf(1.0, MinOf(MaxOf(1.0, if configured == 0.0 then 30.0 else configured), LeaseSeconds(leaseSetting) / 3.0))
  }

  /**
   * Which interval it is: the configured one, thirty seconds when none is, wherever
   * that is at least a second and at most a third of the lease; never less than a second,
   * and a third of the lease when more was asked for.
   */
  lemma IntervalIsConfiguredUpToAThird(configured: real, leaseSetting: real)
    ensures var asked := if configured == 0.0 then 30.0 else configured;
            var lease := if leaseSetting == 0.0 then 120.0 else leaseSetting;
            var interval := Interval(configured, leaseSetting);
            && (1.0 <= asked && 3.0 * asked <= lease ==> interval == asked)
            && (asked < 1.0 || lease < 3.0 ==> interval == 1.0)
            && (lease >= 3.0 && 3.0 * asked >= lease ==> interval == lease / 3.0)
  {
  }

  /** At least a second; at most a third of the lease exactly when the lease is three seconds or more. */
  lemma IntervalIsAThirdOfLease(configured: real, leaseSetting: real)
    ensures Interval(configured, leaseSetting) >= 1.0
    ensures 3.0 * Interval(configured, leaseSetting) <= LeaseSeconds(leaseSetting)
            <==> LeaseSeconds(leaseSetting) >= 3.0
  {
  }

  /**
   * One turn of the heartbeat loop: `extra` is what the turn takes beyond the
   * sleep, `ok` whether the renewal reached the database, `during` what everybody
   * else did to the row since the turn before.
   */
  datatype Beat = Beat(extra: real, ok: bool, during: seq<Step>)

  /** When the last of the beats is over. */
  function Time(start: real, interval: real, beats: seq<Beat>): real {
    if beats == [] then start
    else Time(start, interval, beats[..|beats| - 1]) + interval + beats[|beats| - 1].extra
  }

  /** When the lease was last renewed, or claimed. */
  function LastOk(start: real, interval: real, beats: seq<Beat>): real {
    if beats == [] then start
    else if beats[|beats| - 1].ok then Time(start, interval, beats)
    else LastOk(start, interval, beats[..|beats| - 1])
  }

  /** Beats missed in a row at the end. */
  function Missed(beats: seq<Beat>): nat {
    if beats == [] || beats[|beats| - 1].ok then 0 else 1 + Missed(beats[..|beats| - 1])
  }

  /** Delay gathered since the last renewal. */
  function Delay(beats: seq<Beat>): real {
    if beats == [] || beats[|beats| - 1].ok then 0.0 else Delay(beats[..|beats| - 1]) + beats[|beats| - 1].extra
  }

  lemma {:induction false} TimeSinceRenewal(start: real, interval: real, beats: seq<Beat>)
    ensures Time(start, interval, beats) - LastOk(start, interval, beats)
            == (Missed(beats) as real) * interval + Delay(beats)
  {
    if beats != [] && !beats[|beats| - 1].ok {
      var before := beats[..|beats| - 1];
      TimeSinceRenewal(start, interval, before);
      OneMoreMiss(Missed(before), interval);
    }
  }

  lemma OneMoreMiss(missed: nat, interval: real)
    ensures ((1 + missed) as real) * interval == (missed as real) * interval + interval
  {
    assert (1 + missed) as real == 1.0 + missed as real;
  }

  function BeatSteps(worker: WorkerId, leaseFor: real, at: real, b: Beat): seq<Step> {
    b.during + (if b.ok then [Step.Renew(worker, at, leaseFor)] else [])
  }

  /** Everything that happens to the row while the beats are made. */
  function Steps(worker: WorkerId, leaseFor: real, start: real, interval: real, beats: seq<Beat>): seq<Step> {
    if beats == [] then []
    else
      Steps(worker, leaseFor, start, interval, beats[..|beats| - 1])
      + BeatSteps(worker, leaseFor, Time(start, interval, beats), beats[|beats| - 1])
  }

  /** Others do not write this worker's outcomes, and their reapers look no later than the end of the turn. */
  ghost predicate Undisturbed(worker: WorkerId, until: real, during: seq<Step>) {
    forall i :: 0 <= i < |during| ==> Meanwhile(during[i], worker, until)
  }

  /** Every turn ends before the lease is over by more than the safety margin. */
  ghost predicate InTime(
    cfg: Settings, worker: WorkerId, leaseFor: real, start: real, interval: real, beats: seq<Beat>)
  {
    if beats == [] then true
    else
      var before, now := beats[..|beats| - 1], Time(start, interval, beats);
      && InTime(cfg, worker, leaseFor, start, interval, before)
      && Undisturbed(worker, now, beats[|beats| - 1].during)
      && now <= LastOk(start, interval, before) + leaseFor + cfg.safety
  }

  ghost predicate LeasedTo(s: State, worker: WorkerId, until: real) {
    Owns(s.row, worker) && s.row.lease == Some(until)
  }

  lemma OwnerRenews(cfg: Settings, s: State, worker: WorkerId, leaseFor: real, now: real)
    requires Owns(s.row, worker)
    ensures Next(cfg, s, Step.Renew(worker, now, leaseFor)).row == s.row.(lease := Some(now + leaseFor))
  {
  }

  lemma KeepsOneBeat(cfg: Settings, s: State, worker: WorkerId, leaseFor: real, renewed: real, now: real, b: Beat)
    requires LeasedTo(s, worker, renewed + leaseFor)
    requires Undisturbed(worker, now, b.during) && now <= renewed + leaseFor + cfg.safety
    ensures From(cfg, s, BeatSteps(worker, leaseFor, now, b)).row
            == s.row.(lease := Some((if b.ok then now else renewed) + leaseFor))
  {
    hide From, Next;
    HeldWhileLeaseLives(cfg, s, worker, now, b.during);
    if b.ok {
      OwnerRenews(cfg, From(cfg, s, b.during), worker, leaseFor, now);
      FromSnoc(cfg, s, b.during, Step.Renew(worker, now, leaseFor));
    } else {
      assert b.during + [] == b.during;
    }
  }

  lemma KeepsAnotherBeat(
    cfg: Settings, s: State, worker: WorkerId, leaseFor: real, renewed: real, now: real, steps: seq<Step>, b: Beat)
    requires Owns(s.row, worker) && From(cfg, s, steps).row == s.row.(lease := Some(renewed + leaseFor))
    requires Undisturbed(worker, now, b.during) && now <= renewed + leaseFor + cfg.safety
    ensures From(cfg, s, steps + BeatSteps(worker, leaseFor, now, b)).row
            == s.row.(lease := Some((if b.ok then now else renewed) + leaseFor))
  {
    FromConcat(cfg, s, steps, BeatSteps(worker, leaseFor, now, b));
    KeepsOneBeat(cfg, From(cfg, s, steps), worker, leaseFor, renewed, now, b);
  }

  /** A run whose beats are in time keeps its row: it is never reclaimed and nobody else writes it. */
  lemma {:induction false} InTimeKeepsRow(
    cfg: Settings, s: State, worker: WorkerId, leaseFor: real, start: real, interval: real, beats: seq<Beat>)
    requires LeasedTo(s, worker, start + leaseFor) && InTime(cfg, worker, leaseFor, start, interval, beats)
    ensures From(cfg, s, Steps(worker, leaseFor, start, interval, beats)).row
            == s.row.(lease := Some(LastOk(start, interval, beats) + leaseFor))
  {
    hide Next;
    if beats != [] {
      var before, now := beats[..|beats| - 1], Time(start, interval, beats);
      InTimeKeepsRow(cfg, s, worker, leaseFor, start, interval, before);
      KeepsAnotherBeat(cfg, s, worker, leaseFor, LastOk(start, interval, before), now,
                       Steps(worker, leaseFor, start, interval, before), beats[|beats| - 1]);
    }
  }

  /** No turn starts after three misses in a row, and the delay since the last renewal fits the safety margin. */
  ghost predicate Healthy(cfg: Settings, worker: WorkerId, start: real, interval: real, beats: seq<Beat>) {
    if beats == [] then true
    else
      var before, b := beats[..|beats| - 1], beats[|beats| - 1];
      && Healthy(cfg, worker, start, interval, before)
      && Undisturbed(worker, Time(start, interval, beats), b.during)
      && Missed(before) <= 2 && Delay(before) + b.extra <= cfg.safety
  }

  lemma ThreeIntervals(missed: nat, interval: real, leaseFor: real)
    requires missed <= 2 && 0.0 <= interval && 3.0 * interval <= leaseFor
    ensures (missed as real) * interval + interval <= leaseFor
  {
    assert missed == 0 || missed == 1 || missed == 2;
  }

  lemma {:induction false} HealthyIsInTime(
    cfg: Settings, worker: WorkerId, leaseFor: real, start: real, interval: real, beats: seq<Beat>)
    requires Healthy(cfg, worker, start, interval, beats)
    requires 0.0 <= interval && 3.0 * interval <= leaseFor
    ensures InTime(cfg, worker, leaseFor, start, interval, beats)
  {
    if beats != [] {
      var before := beats[..|beats| - 1];
      HealthyIsInTime(cfg, worker, leaseFor, start, interval, before);
      TimeSinceRenewal(start, interval, before);
      ThreeIntervals(Missed(before), interval, leaseFor);
    }
  }

  lemma OwnerCompletes(cfg: Settings, s: State, worker: WorkerId, run: RunId, answer: int, auto: bool)
    requires Owns(s.row, worker)
    ensures var done := Next(cfg, s, Step.Complete(worker, run, answer, auto));
            done.row.result == Some(answer) && done.row.status == Done
  {
  }

  /**
   * With a lease of at least three seconds, a run that never misses three beats in
   * a row and whose delay between renewals stays within the reaper's safety margin
   * keeps its row on every timed run, and its completion is accepted.
   */
  lemma HealthyRunIsNeverReclaimed(
    cfg: Settings, s: State, worker: WorkerId, configured: real, leaseFor: real, start: real, beats: seq<Beat>,
    run: RunId, answer: int, auto: bool)
    requires leaseFor >= 3.0 && LeasedTo(s, worker, start + leaseFor)
    requires Healthy(cfg, worker, start, Interval(configured, leaseFor), beats)
    ensures var held := From(cfg, s, Steps(worker, leaseFor, start, Interval(configured, leaseFor), beats));
            && held.row == s.row.(lease := Some(LastOk(start, Interval(configured, leaseFor), beats) + leaseFor))
            && var done := Next(cfg, held, Step.Complete(worker, run, answer, auto));
               done.row.result == Some(answer) && done.row.status == Done
  {
    hide From, Next, InTime, Healthy;
    IntervalIsAThirdOfLease(configured, leaseFor);
    HealthyIsInTime(cfg, worker, leaseFor, start, Interval(configured, leaseFor), beats);
    InTimeKeepsRow(cfg, s, worker, leaseFor, start, Interval(configured, leaseFor), beats);
    var held := From(cfg, s, Steps(worker, leaseFor, start, Interval(configured, leaseFor), beats));
    OwnerCompletes(cfg, held, worker, run, answer, auto);
  }

  /** A reaper looks at the end of every turn, just before the beat. */
  ghost predicate Watched(start: real, interval: real, beats: seq<Beat>) {
    if beats == [] then true
    else
      && Watched(start, interval, beats[..|beats| - 1])
      && beats[|beats| - 1].during == [Reclaim(Time(start, interval, beats))]
  }

  /** A reaper takes the row away exactly when it looks later than lease and margin after the last renewal. */
  lemma LateRunIsReclaimed(cfg: Settings, s: State, worker: WorkerId, renewed: real, leaseFor: real, now: real)
    requires LeasedTo(s, worker, renewed + leaseFor)
    ensures Next(cfg, s, Reclaim(now)).row
            == if now <= renewed + leaseFor + cfg.safety then s.row else ReclaimedRow(cfg, s.row, now)
  {
  }

  lemma LostStaysLost(cfg: Settings, s: State, worker: WorkerId, leaseFor: real, now: real, b: Beat)
    requires s.row.status != Processing && b.during == [Reclaim(now)]
    ensures From(cfg, s, BeatSteps(worker, leaseFor, now, b)).row == s.row
  {
    FromOne(cfg, s, Reclaim(now));
    FromSnoc(cfg, s, b.during, Step.Renew(worker, now, leaseFor));
    assert b.during + [] == b.during;
  }

  lemma LostAtBeat(cfg: Settings, s: State, worker: WorkerId, leaseFor: real, renewed: real, now: real, b: Beat)
    requires LeasedTo(s, worker, renewed + leaseFor) && now > renewed + leaseFor + cfg.safety
    requires b.during == [Reclaim(now)]
    ensures From(cfg, s, BeatSteps(worker, leaseFor, now, b)).row.status != Processing
  {
    FromOne(cfg, s, Reclaim(now));
    LateRunIsReclaimed(cfg, s, worker, renewed, leaseFor, now);
    FromSnoc(cfg, s, b.during, Step.Renew(worker, now, leaseFor));
    assert b.during + [] == b.during;
  }

  /**
   * The condition is exact over whole runs: under reapers that look at the end of
   * every turn, the run still holds its row exactly when every turn ended before the
   * lease was over by more than the safety margin. Once lost the row stays lost.
   */
  lemma {:induction false} WatchedRunKeepsRowIff(
    cfg: Settings, s: State, worker: WorkerId, leaseFor: real, start: real, interval: real, beats: seq<Beat>)
    requires LeasedTo(s, worker, start + leaseFor) && Watched(start, interval, beats)
    ensures var row := From(cfg, s, Steps(worker, leaseFor, start, interval, beats)).row;
            if InTime(cfg, worker, leaseFor, start, interval, beats) then Owns(row, worker)
            else row.status != Processing
  {
    hide From, Next;
    if InTime(cfg, worker, leaseFor, start, interval, beats) {
      InTimeKeepsRow(cfg, s, worker, leaseFor, start, interval, beats);
    } else {
      var before, b, now := beats[..|beats| - 1], beats[|beats| - 1], Time(start, interval, beats);
      var steps := Steps(worker, leaseFor, start, interval, before);
      WatchedRunKeepsRowIff(cfg, s, worker, leaseFor, start, interval, before);
      FromConcat(cfg, s, steps, BeatSteps(worker, leaseFor, now, b));
      if InTime(cfg, worker, leaseFor, start, interval, before) {
        InTimeKeepsRow(cfg, s, worker, leaseFor, start, interval, before);
        LostAtBeat(cfg, From(cfg, s, steps), worker, leaseFor, LastOk(start, interval, before), now, b);
      } else {
        LostStaysLost(cfg, From(cfg, s, steps), worker, leaseFor, now, b);
      }
    }
  }

  lemma {:induction false} HealthyPrefix(
    cfg: Settings, worker: WorkerId, start: real, interval: real, beats: seq<Beat>, made: nat)
    requires Healthy(cfg, worker, start, interval, beats) && made <= |beats|
    ensures Healthy(cfg, worker, start, interval, beats[..made])
  {
    if made < |beats| {
      HealthyPrefix(cfg, worker, start, interval, beats[..|beats| - 1], made);
      assert beats[..|beats| - 1][..made] == beats[..made];
    } else {
      assert beats[..made] == beats;
    }
  }

  /** So the heartbeat of a healthy run never reports its lease as lost, whenever it is asked. */
  lemma HealthyHeartbeatIsNeverLost(
    cfg: Settings, s: State, worker: WorkerId, configured: real, leaseFor: real, start: real, beats: seq<Beat>,
    made: nat)
    requires leaseFor >= 3.0 && LeasedTo(s, worker, start + leaseFor) && made <= |beats|
    requires Healthy(cfg, worker, start, Interval(configured, leaseFor), beats)
    ensures var steps := Steps(worker, leaseFor, start, Interval(configured, leaseFor), beats[..made]);
            Owns(From(cfg, s, steps).row, worker)
  {
    HealthyPrefix(cfg, worker, start, Interval(configured, leaseFor), beats, made);
    HealthyRunIsNeverReclaimed(cfg, s, worker, configured, leaseFor, start, beats[..made], 0, 0, false);
  }

  /**
   * `_heartbeat_lease`, driven by the beats it gets to make: a renewal that fails
   * with an error is retried at the next beat, one that finds the row in other
   * hands ends the loop.
   */
  method HeartbeatLease(
    job: PipelineJob, worker: WorkerId, configured: real, leaseFor: real, start: real, beats: seq<Beat>)
    returns (lost: bool, made: nat)
    modifies job
    ensures made <= |beats|
    ensures job.Value() == From(job.cfg, old(job.Value()),
                                Steps(worker, leaseFor, start, Interval(configured, leaseFor), beats[..made]))
    ensures if lost then !Owns(job.Value().row, worker) else made == |beats|
  {
    hide From, Next;
    var interval, now := Interval(configured, leaseFor), start;
    ghost var s := job.Value();
    FromNothing(job.cfg, s);
    lost, made := false, 0;
    while made < |beats| && !lost
      invariant made <= |beats|
      invariant job.Value() == From(job.cfg, s, Steps(worker, leaseFor, start, interval, beats[..made]))
      invariant !lost ==> now == Time(start, interval, beats[..made])
      invariant lost ==> !Owns(job.Value().row, worker)
      decreases |beats| - made
    {
      var b := beats[made];
      assert beats[..made + 1][..made] == beats[..made];
      now := now + interval + b.extra;
      FromConcat(job.cfg, s, Steps(worker, leaseFor, start, interval, beats[..made]),
                 BeatSteps(worker, leaseFor, now, b));
      lost := MakeBeat(job, worker, leaseFor, now, b);
      made := made + 1;
    }
    assert beats[..|beats|] == beats;
  }

  method MakeBeat(job: PipelineJob, worker: WorkerId, leaseFor: real, now: real, b: Beat) returns (lost: bool)
    modifies job
    ensures job.Value() == From(job.cfg, old(job.Value()), BeatSteps(worker, leaseFor, now, b))
    ensures lost ==> !Owns(job.Value().row, worker)
    ensures !lost && b.ok ==> Owns(job.Value().row, worker)
  {
    hide From;
    ghost var s := job.Value();
    job.Interleave(b.during);
    if !b.ok {
      assert b.during + [] == b.during;
      return false;
    }
    FromSnoc(job.cfg, s, b.during, Step.Renew(worker, now, leaseFor));
    var stillOurs := job.RenewLease(worker, now, leaseFor);
    return !stillOurs;
  }
}
