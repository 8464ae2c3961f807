/**
 * The lease protocol of the durable queue: one `pipeline_jobs` row, and any
 * interleaving of enqueues, claims, heartbeats, worker outcomes, reapers,
 * watchdog resumes, user answers, expiries and operator retries on it. Rows are
 * independent: every statement of the protocol addresses one row by its primary
 * key.
 *
 * Claims, heartbeats, reapers and completions are compare-and-set statements, and
 * a worker's other outcomes are fenced. The rest of the code reads a row first and
 * writes it later without looking again: for these a `Step` is the write alone,
 * whatever the row has become meanwhile, and `Selected` is what was read.
 *
 * `Effect` is one statement on values together with what it did; the log of a
 * run is what the theorems count.
 */
module LeaseQueue {
  import opened Wrappers

  type WorkerId = w: string | w != "" witness "worker"

  /** One execution of `_run_item`. */
  type RunId = nat

  datatype Status = Queued | Processing | Done | Dead | Paused | NeedsInput

  /** `maxAttempts` is the effective failure budget; `pauses` is `paused_count` in the payload. */
  datatype Row = Row(
    status: Status, lockedBy: string, lease: Option<real>, scheduledAt: real,
    attempts: int, maxAttempts: int, reclaims: int, pauses: int, result: Option<int>)

  type Positive = n: nat | n >= 1 witness 1

  /** `worker_max_reclaims` after its floor of one. */
  datatype Settings = Settings(maxReclaims: Positive, safety: real)

  const AI_PAUSE_MAX: nat := 12

  datatype Step =
    | Enqueue(maxAttempts: int, at: real)
    | Claim(worker: WorkerId, now: real, leaseFor: real)
    | Take(worker: WorkerId, now: real, leaseFor: real)
    | Renew(worker: WorkerId, now: real, leaseFor: real)
    | Complete(worker: WorkerId, run: RunId, result: int, auto: bool)
    | Charge(run: RunId)
    | Fail(worker: WorkerId, retryable: bool, retryAt: real)
    | Pause(worker: WorkerId, retryAt: real)
    | Park(worker: WorkerId, plan: Option<int>)
    | NoHandler(worker: WorkerId)
    | Reclaim(now: real)
    | Drain(now: real, force: bool)
    | RetryDead(now: real)
    | Answer(now: real)
    | CloseExpired

  /**
   * What a statement did; nothing is logged for one that matched no row. A
   * completion and a charge carry the enqueue they belong to, counted from one.
   */
  datatype Entry =
    | Enqueued
    | Retried
    | Answered
    | Claimed(worker: WorkerId)
    | Completed(worker: WorkerId, run: RunId, auto: bool, enqueue: nat)
    | Charged(run: RunId, enqueue: nat)
    | Failed(worker: WorkerId)
    | PausedBy(worker: WorkerId)
    | Reclaimed
    | ParkedBy(worker: WorkerId)
    | GaveUp
    | Abandoned

  datatype State = State(row: Row, log: seq<Entry>)

  // ----- the statements -----------------------------------------------------------------------

  /** The fence: this row is this worker's in-flight item. */
  predicate Owns(row: Row, worker: WorkerId) {
    row.status == Processing && row.lockedBy == worker
  }

  function Released(row: Row, status: Status): Row {
    row.(status := status, lockedBy := "", lease := None)
  }

  function Fresh(maxAttempts: int, at: real): Row {
    Row(Queued, "", None, at, 0, maxAttempts, 0, 0, None)
  }

  /** What `claim_item` asks in one statement; `claim` selects by it and then updates by status alone: a `Take`. */
  predicate Claimable(row: Row, now: real) {
    row.status == Queued && row.scheduledAt <= now
  }

  function LeasedRow(row: Row, worker: WorkerId, until: real): Row {
    row.(status := Processing, lockedBy := worker, lease := Some(until))
  }

  /** `fail`: the failure is counted before the budget is applied. */
  function FailedRow(row: Row, retryable: bool, retryAt: real): Row {
    var counted := row.(attempts := row.attempts + 1);
    if retryable && counted.attempts < row.maxAttempts then Released(counted, Queued).(scheduledAt := retryAt)
    else Released(counted, Dead)
  }

  function PausedRow(row: Row, retryAt: real): Row {
    if row.pauses + 1 > AI_PAUSE_MAX then Released(row, Dead)
    else Released(row, Paused).(pauses := row.pauses + 1, scheduledAt := retryAt)
  }

  /** Only a lease that has been over for more than the safety margin is reclaimed; a row without one always is. */
  predicate Stalled(cfg: Settings, row: Row, now: real) {
    row.status == Processing && (row.lease.None? || row.lease.value < now - cfg.safety)
  }

  predicate CrashLooped(cfg: Settings, row: Row) {
    row.attempts >= row.maxAttempts || row.reclaims >= cfg.maxReclaims
  }

  function ReclaimedRow(cfg: Settings, row: Row, now: real): Row {
    if CrashLooped(cfg, row) then Released(row, Dead)
    else Released(row, Queued).(scheduledAt := now, reclaims := row.reclaims + 1)
  }

  /** The statements that write without a compare-and-set and without the fence. */
  predicate Unfenced(step: Step) {
    step.Enqueue? || step.NoHandler? || step.Drain? || step.RetryDead? || step.Answer? || step.CloseExpired?
  }

  /** What an unfenced statement has read; the no-handler branch comes right after its worker's claim. */
  predicate Selected(row: Row, step: Step) {
    match step
    case Enqueue(_, _) => row.status == Done || row.status == Dead
    case NoHandler(_) => row.status == Processing
    case Drain(now, force) => row.status == Paused && (force || row.scheduledAt <= now)
    case RetryDead(_) => row.status == Dead
    case Answer(_) => row.status == NeedsInput
    case CloseExpired => row.status == NeedsInput
    case _ => true
  }

  /**
   * The row after a statement and what to log. `enqueue` numbers the enqueue the
   * row is in; `owed` is the enqueue a charging run's own completion is unpaid for.
   */
  function Effect(cfg: Settings, row: Row, enqueue: nat, owed: Option<nat>, step: Step): (Row, Option<Entry>) {
    match step
    case Enqueue(maxAttempts, at) => (Fresh(maxAttempts, at), Some(Enqueued))
    case Claim(worker, now, leaseFor) =>
      if Claimable(row, now) then (LeasedRow(row, worker, now + leaseFor), Some(Claimed(worker))) else (row, None)
    case Take(worker, now, leaseFor) =>
      if row.status == Queued then (LeasedRow(row, worker, now + leaseFor), Some(Claimed(worker))) else (row, None)
    case Renew(worker, now, leaseFor) =>
      if Owns(row, worker) then (row.(lease := Some(now + leaseFor)), None) else (row, None)
    case Complete(worker, run, result, auto) =>
      if Owns(row, worker) then
        (Released(row, Done).(result := Some(result)), Some(Completed(worker, run, auto, enqueue)))
      else (row, None)
    case Charge(run) => (row, if owed.Some? then Some(Charged(run, owed.value)) else None)
    case Fail(worker, retryable, retryAt) =>
      if Owns(row, worker) then (FailedRow(row, retryable, retryAt), Some(Failed(worker))) else (row, None)
    case Pause(worker, retryAt) =>
      if Owns(row, worker) then
        (PausedRow(row, retryAt), Some(if row.pauses + 1 > AI_PAUSE_MAX then GaveUp else PausedBy(worker)))
      else (row, None)
    case Park(worker, plan) =>
      if Owns(row, worker) then
        (Released(row, NeedsInput).(result := if plan.Some? then plan else row.result), Some(ParkedBy(worker)))
      else (row, None)
    case NoHandler(worker) => (FailedRow(row, false, 0.0), Some(Failed(worker)))
    case Reclaim(now) =>
      if Stalled(cfg, row, now) then
        (ReclaimedRow(cfg, row, now), Some(if CrashLooped(cfg, row) then Abandoned else Reclaimed))
      else (row, None)
    case Drain(now, _) => (row.(status := Queued, scheduledAt := now), None)
    case RetryDead(now) => (row.(status := Queued, attempts := 0, pauses := 0, scheduledAt := now), Some(Retried))
    case Answer(now) => (row.(status := Queued, attempts := 0, scheduledAt := now), Some(Answered))
    case CloseExpired => (Released(row, Dead), None)
  }

  function Enqueues(log: seq<Entry>): nat {
    if log == [] then 0 else Enqueues(log[..|log| - 1]) + (if log[|log| - 1].Enqueued? then 1 else 0)
  }

  /**
   * Where a run stands between its completion and its charge: the enqueue it has
   * completed, automatically, and not charged yet.
   */
  function Owed(log: seq<Entry>, run: RunId): Option<nat> {
    if log == [] then None
    else
      var last := log[|log| - 1];
      if last.Completed? && last.run == run then (if last.auto then Some(last.enqueue) else None)
      else if last.Charged? && last.run == run then None
      else Owed(log[..|log| - 1], run)
  }

  /** A run charges after its own completion was accepted, and once: that is its program order. */
  function OwedBy(log: seq<Entry>, step: Step): Option<nat> {
    if step.Charge? then Owed(log, step.run) else None
  }

  function Next(cfg: Settings, s: State, step: Step): State {
    var (row, entry) := Effect(cfg, s.row, Enqueues(s.log), OwedBy(s.log, step), step);
    State(row, if entry.Some? then s.log + [entry.value] else s.log)
  }

  function From(cfg: Settings, s: State, steps: seq<Step>): State {
    if steps == [] then s
    else Next(cfg, From(cfg, s, steps[..|steps| - 1]), steps[|steps| - 1])
  }

  function Start(maxAttempts: int, at: real): State {
    State(Fresh(maxAttempts, at), [Enqueued])
  }

  // ----- the fence -------------------------------------------------------------------------------

  /** Heartbeats and outcomes of one worker's runs, whatever their results. */
  predicate OutcomeOf(step: Step, worker: WorkerId) {
    match step
    case Renew(w, _, _) => w == worker
    case Complete(w, _, _, _) => w == worker
    case Fail(w, _, _) => w == worker
    case Pause(w, _) => w == worker
    case Park(w, _) => w == worker
    case _ => false
  }

  /**
   * A run whose row has passed to another worker, or is no longer in flight at
   * all, never changes that row again: not by any number of late heartbeats and
   * outcomes, in any order.
   */
  lemma {:induction false} LateOutcomesChangeNothing(cfg: Settings, s: State, worker: WorkerId, late: seq<Step>)
    requires !Owns(s.row, worker)
    requires forall i :: 0 <= i < |late| ==> OutcomeOf(late[i], worker)
    ensures From(cfg, s, late) == s
  {
    if late != [] {
      LateOutcomesChangeNothing(cfg, s, worker, late[..|late| - 1]);
      assert OutcomeOf(late[|late| - 1], worker);
    }
  }

  lemma {:induction false} FromConcat(cfg: Settings, s: State, a: seq<Step>, b: seq<Step>)
    ensures From(cfg, s, a + b) == From(cfg, From(cfg, s, a), b)
  {
    if b == [] {
      assert a + b == a;
    } else {
      assert (a + b)[..|a + b| - 1] == a + b[..|b| - 1];
      FromConcat(cfg, s, a, b[..|b| - 1]);
    }
  }

  /** Seen from a whole run: whatever a deposed worker still sends could as well not have happened. */
  lemma LateOutcomesAreUnobservable(
    cfg: Settings, s: State, worker: WorkerId, before: seq<Step>, late: seq<Step>, after: seq<Step>)
    requires !Owns(From(cfg, s, before).row, worker)
    requires forall i :: 0 <= i < |late| ==> OutcomeOf(late[i], worker)
    ensures From(cfg, s, before + late + after) == From(cfg, s, before + after)
  {
    LateOutcomesChangeNothing(cfg, From(cfg, s, before), worker, late);
    FromConcat(cfg, s, before, late);
    FromConcat(cfg, s, before + late, after);
    FromConcat(cfg, s, before, after);
  }

  /** Every unfenced write meets the row as it was read. */
  ghost predicate WritesFit(cfg: Settings, s: State, steps: seq<Step>) {
    if steps == [] then true
    else
      var before, last := steps[..|steps| - 1], steps[|steps| - 1];
      && WritesFit(cfg, s, before)
      && (Unfenced(last) ==> Selected(From(cfg, s, before).row, last))
  }

  /** No unfenced write meets a finished row, except one that enqueues the work anew. */
  ghost predicate WritesSpareDone(cfg: Settings, s: State, steps: seq<Step>) {
    if steps == [] then true
    else
      var before, last := steps[..|steps| - 1], steps[|steps| - 1];
      && WritesSpareDone(cfg, s, before)
      && (Unfenced(last) && !last.Enqueue? ==> From(cfg, s, before).row.status != Done)
  }

  // ----- counting ------------------------------------------------------------------------------

  /** What happened since the last enqueue, retry or answer. `ends` counts completions, parks and giving up. */
  datatype Tally = Tally(claims: nat, fails: nat, pauses: nat, reclaims: nat, ends: nat)

  function Counted(t: Tally, e: Entry): Tally {
    match e
    case Enqueued => Tally(0, 0, 0, 0, 0)
    case Retried => Tally(0, 0, 0, 0, 0)
    case Answered => Tally(0, 0, 0, 0, 0)
    case Claimed(_) => t.(claims := t.claims + 1)
    case Failed(_) => t.(fails := t.fails + 1)
    case PausedBy(_) => t.(pauses := t.pauses + 1)
    case Reclaimed => t.(reclaims := t.reclaims + 1)
    case Charged(_, _) => t
    case _ => t.(ends := t.ends + 1)
  }

  function TallyOf(log: seq<Entry>): Tally {
    if log == [] then Tally(0, 0, 0, 0, 0) else Counted(TallyOf(log[..|log| - 1]), log[|log| - 1])
  }

  /** What happened since the last enqueue, over all retries and answers. `outs` counts failures and ends. */
  datatype Life = Life(claims: nat, outs: nat, pauses: nat, reclaims: nat, retries: nat, answers: nat)

  function Lived(l: Life, e: Entry): Life {
    match e
    case Enqueued => Life(0, 0, 0, 0, 0, 0)
    case Retried => l.(retries := l.retries + 1)
    case Answered => l.(answers := l.answers + 1)
    case Claimed(_) => l.(claims := l.claims + 1)
    case PausedBy(_) => l.(pauses := l.pauses + 1)
    case Reclaimed => l.(reclaims := l.reclaims + 1)
    case Charged(_, _) => l
    case _ => l.(outs := l.outs + 1)
  }

  function LifeOf(log: seq<Entry>): Life {
    if log == [] then Life(0, 0, 0, 0, 0, 0) else Lived(LifeOf(log[..|log| - 1]), log[|log| - 1])
  }

  /** Outage pauses since the last enqueue or retry; an answer keeps them. */
  function Pauses(log: seq<Entry>): nat {
    if log == [] || log[|log| - 1].Enqueued? || log[|log| - 1].Retried? then 0
    else Pauses(log[..|log| - 1]) + (if log[|log| - 1].PausedBy? then 1 else 0)
  }

  /** Completions since the last enqueue; a retry or an answer does not start a new run of the work. */
  function Completions(log: seq<Entry>): nat {
    if log == [] || log[|log| - 1].Enqueued? then 0
    else Completions(log[..|log| - 1]) + (if log[|log| - 1].Completed? then 1 else 0)
  }

  lemma OneMoreEntry(log: seq<Entry>, e: Entry)
    ensures TallyOf(log + [e]) == Counted(TallyOf(log), e) && LifeOf(log + [e]) == Lived(LifeOf(log), e)
    ensures Completions(log + [e]) == if e.Enqueued? then 0 else Completions(log) + (if e.Completed? then 1 else 0)
    ensures Pauses(log + [e])
            == if e.Enqueued? || e.Retried? then 0 else Pauses(log) + (if e.PausedBy? then 1 else 0)
    ensures Enqueues(log + [e]) == Enqueues(log) + (if e.Enqueued? then 1 else 0)
  {
    assert (log + [e])[..|log|] == log;
  }

  // ----- the invariant -------------------------------------------------------------------------

  function AtLeastOne(n: int): int {
    if n < 1 then 1 else n
  }

  /** A row is locked and leased exactly while it is in flight. */
  predicate LeaseOk(row: Row) {
    if row.status == Processing then row.lockedBy != "" && row.lease.Some? else row.lockedBy == "" && row.lease == None
  }

  /** The counters of the row are counts of its log, and every budget holds. */
  predicate CountsOk(cfg: Settings, row: Row, t: Tally) {
    && row.attempts == t.fails && t.fails + t.ends <= AtLeastOne(row.maxAttempts)
    && t.pauses <= row.pauses <= AI_PAUSE_MAX
    && t.reclaims <= row.reclaims <= cfg.maxReclaims
    && t.ends <= 1
    && t.claims == t.fails + t.pauses + t.reclaims + t.ends + (if row.status == Processing then 1 else 0)
  }

  /** Work that may still run has budget left and has not ended. */
  predicate OpenOk(row: Row, t: Tally) {
    row.status == Queued || row.status == Processing || row.status == Paused ==>
      t.ends == 0 && (t.fails == 0 || t.fails < row.maxAttempts)
  }

  /** A budget granted so many times. */
  function Granted(budget: int, grants: nat): int {
    if grants == 0 then 0 else Granted(budget, grants - 1) + budget
  }

  lemma {:induction false} GrantedIsProduct(budget: int, grants: nat)
    ensures Granted(budget, grants) == budget * grants
  {
    if grants > 0 {
      GrantedIsProduct(budget, grants - 1);
      assert budget * (grants - 1) + budget == budget * grants;
    }
  }

  /** Every retry and every answer grants the failure budget once more, every retry the pause budget. */
  predicate LifeOk(row: Row, t: Tally, l: Life) {
    && l.claims == l.outs + l.pauses + l.reclaims + (if row.status == Processing then 1 else 0)
    && l.outs <= Granted(AtLeastOne(row.maxAttempts), l.retries + l.answers) + t.fails + t.ends
    && l.pauses <= Granted(AI_PAUSE_MAX, l.retries) + row.pauses
    && l.reclaims == row.reclaims
  }

  predicate RowSound(cfg: Settings, row: Row, t: Tally) {
    LeaseOk(row) && CountsOk(cfg, row, t) && OpenOk(row, t)
  }

  predicate Sound(cfg: Settings, s: State) {
    && RowSound(cfg, s.row, TallyOf(s.log)) && LifeOk(s.row, TallyOf(s.log), LifeOf(s.log))
    && s.row.pauses == Pauses(s.log)
  }

  lemma EffectKeepsLease(cfg: Settings, row: Row, enqueue: nat, owed: Option<nat>, step: Step)
    requires LeaseOk(row) && (Unfenced(step) ==> Selected(row, step))
    ensures LeaseOk(Effect(cfg, row, enqueue, owed, step).0)
  {
  }

  lemma EffectKeepsCounts(cfg: Settings, row: Row, enqueue: nat, owed: Option<nat>, step: Step, t: Tally)
    requires CountsOk(cfg, row, t) && OpenOk(row, t) && (Unfenced(step) ==> Selected(row, step))
    ensures var (row', entry) := Effect(cfg, row, enqueue, owed, step);
            CountsOk(cfg, row', if entry.None? then t else Counted(t, entry.value))
  {
    hide LeaseOk;
  }

  lemma EffectKeepsOpen(cfg: Settings, row: Row, enqueue: nat, owed: Option<nat>, step: Step, t: Tally)
    requires CountsOk(cfg, row, t) && OpenOk(row, t) && (Unfenced(step) ==> Selected(row, step))
    ensures var (row', entry) := Effect(cfg, row, enqueue, owed, step);
            OpenOk(row', if entry.None? then t else Counted(t, entry.value))
  {
  }

  lemma EffectIsSound(cfg: Settings, row: Row, enqueue: nat, owed: Option<nat>, step: Step, t: Tally)
    requires RowSound(cfg, row, t) && (Unfenced(step) ==> Selected(row, step))
    ensures var (row', entry) := Effect(cfg, row, enqueue, owed, step);
            RowSound(cfg, row', if entry.None? then t else Counted(t, entry.value))
  {
    hide LeaseOk, CountsOk, OpenOk;
    EffectKeepsLease(cfg, row, enqueue, owed, step);
    EffectKeepsCounts(cfg, row, enqueue, owed, step, t);
    EffectKeepsOpen(cfg, row, enqueue, owed, step, t);
  }

  lemma GrantedOnceMore(budget: int, grants: nat)
    ensures Granted(budget, 0) == 0
    ensures Granted(budget, grants + 1) == Granted(budget, grants) + budget
  {
  }

  lemma EffectKeepsLife(cfg: Settings, row: Row, enqueue: nat, owed: Option<nat>, step: Step, t: Tally, l: Life)
    requires RowSound(cfg, row, t) && (Unfenced(step) ==> Selected(row, step)) && LifeOk(row, t, l)
    ensures var (row', entry) := Effect(cfg, row, enqueue, owed, step);
            if entry.None? then LifeOk(row', t, l)
            else LifeOk(row', Counted(t, entry.value), Lived(l, entry.value))
  {
    hide Granted, LeaseOk, OpenOk;
    GrantedOnceMore(AtLeastOne(row.maxAttempts), l.retries + l.answers);
    GrantedOnceMore(AI_PAUSE_MAX, l.retries);
    if step.Enqueue? {
      GrantedOnceMore(AtLeastOne(step.maxAttempts), 0);
    }
  }

  lemma EffectCountsPauses(cfg: Settings, row: Row, enqueue: nat, owed: Option<nat>, step: Step)
    ensures var (row', entry) := Effect(cfg, row, enqueue, owed, step);
            row'.pauses == if entry.Some? && (entry.value.Enqueued? || entry.value.Retried?) then 0
                           else row.pauses + (if entry.Some? && entry.value.PausedBy? then 1 else 0)
  {
  }

  lemma NextIsSound(cfg: Settings, s: State, step: Step)
    requires Sound(cfg, s) && (Unfenced(step) ==> Selected(s.row, step))
    ensures Sound(cfg, Next(cfg, s, step))
  {
    hide Effect, RowSound, LifeOk, Selected, Counted, Lived;
    var enqueue, owed := Enqueues(s.log), OwedBy(s.log, step);
    EffectIsSound(cfg, s.row, enqueue, owed, step, TallyOf(s.log));
    EffectKeepsLife(cfg, s.row, enqueue, owed, step, TallyOf(s.log), LifeOf(s.log));
    EffectCountsPauses(cfg, s.row, enqueue, owed, step);
    var entry := Effect(cfg, s.row, enqueue, owed, step).1;
    if entry.Some? {
      OneMoreEntry(s.log, entry.value);
    }
  }

  // ----- theorems over every run -------------------------------------------------------------

  lemma StartIsSound(cfg: Settings, maxAttempts: int, at: real)
    ensures Sound(cfg, Start(maxAttempts, at))
  {
    OneMoreEntry([], Enqueued);
    assert [] + [Enqueued] == [Enqueued];
  }

  lemma {:induction false} RunIsSound(cfg: Settings, maxAttempts: int, at: real, steps: seq<Step>)
    requires WritesFit(cfg, Start(maxAttempts, at), steps)
    ensures Sound(cfg, From(cfg, Start(maxAttempts, at), steps))
  {
    hide Next, Sound, Selected, Start;
    if steps == [] {
      StartIsSound(cfg, maxAttempts, at);
    } else {
      RunIsSound(cfg, maxAttempts, at, steps[..|steps| - 1]);
      NextIsSound(cfg, From(cfg, Start(maxAttempts, at), steps[..|steps| - 1]), steps[|steps| - 1]);
    }
  }

  predicate CountsEvents(cfg: Settings, row: Row, fails: nat, pauses: nat, reclaims: nat) {
    && row.attempts == fails <= (if row.maxAttempts < 1 then 1 else row.maxAttempts)
    && row.pauses == pauses <= 12 && row.reclaims == reclaims <= cfg.maxReclaims
  }

  /**
   * The row's counters are exact counts: `attempts` of the failures recorded since
   * the last enqueue, retry or answer, `paused_count` of the outage pauses since the
   * last enqueue or retry, `reclaim_count` of the re-queued lease expiries since the
   * last enqueue. Claims cost nothing, and none of the three exceeds its cap.
   */
  lemma CountersAreCounts(cfg: Settings, maxAttempts: int, at: real, steps: seq<Step>)
    requires WritesFit(cfg, Start(maxAttempts, at), steps)
    ensures var s := From(cfg, Start(maxAttempts, at), steps);
            CountsEvents(cfg, s.row, TallyOf(s.log).fails, Pauses(s.log), LifeOf(s.log).reclaims)
  {
    hide From;
    RunIsSound(cfg, maxAttempts, at, steps);
  }

  predicate ClaimsWithin(cfg: Settings, maxAttempts: int, t: Tally, l: Life) {
    var budget := if maxAttempts < 1 then 1 else maxAttempts;
    && t.claims <= budget + 12 + cfg.maxReclaims
    && l.claims <= budget * (1 + l.retries + l.answers) + 12 * (1 + l.retries) + cfg.maxReclaims
  }

  /**
   * No row bounces for ever by itself. Between two enqueues it is claimed at most as
   * often as its budgets allow, the failure budget granted anew by every operator
   * retry and every user answer, the pause budget by every retry, the reclaim budget
   * never.
   */
  lemma ClaimsAreBounded(cfg: Settings, maxAttempts: int, at: real, steps: seq<Step>)
    requires WritesFit(cfg, Start(maxAttempts, at), steps)
    ensures var s := From(cfg, Start(maxAttempts, at), steps);
            ClaimsWithin(cfg, s.row.maxAttempts, TallyOf(s.log), LifeOf(s.log))
  {
    hide From;
    var s := From(cfg, Start(maxAttempts, at), steps);
    RunIsSound(cfg, maxAttempts, at, steps);
    SoundIsWithin(cfg, s);
  }

  lemma SoundIsWithin(cfg: Settings, s: State)
    requires Sound(cfg, s)
    ensures ClaimsWithin(cfg, s.row.maxAttempts, TallyOf(s.log), LifeOf(s.log))
  {
    hide Granted, TallyOf, LifeOf, Pauses;
    var l, budget := LifeOf(s.log), AtLeastOne(s.row.maxAttempts);
    GrantedIsProduct(budget, l.retries + l.answers);
    GrantedIsProduct(AI_PAUSE_MAX, l.retries);
    OneMoreFactor(budget, l.retries + l.answers);
  }

  lemma OneMoreFactor(budget: int, n: nat)
    ensures budget * (1 + n) == budget * n + budget
  {
  }

  // ----- completions ------------------------------------------------------------------------------

  /** The row is `done` exactly when the work was completed, once, since it was last enqueued. */
  predicate CompletedOnce(s: State) {
    Completions(s.log) == (if s.row.status == Done then 1 else 0)
  }

  lemma EffectOnCompletions(cfg: Settings, row: Row, enqueue: nat, owed: Option<nat>, step: Step)
    ensures var (row', entry) := Effect(cfg, row, enqueue, owed, step);
            && (entry == Some(Enqueued) <==> step.Enqueue?)
            && (entry == Some(Enqueued) ==> row'.status != Done)
            && (entry.Some? && entry.value.Completed? ==>
                  row.status != Done && row'.status == Done && !Unfenced(step))
            && (entry.None? || !(entry.value.Enqueued? || entry.value.Completed?) ==>
                  (row'.status == Done <==> row.status == Done && !Unfenced(step)))
  {
  }

  lemma NextCompletedOnce(cfg: Settings, s: State, step: Step)
    requires CompletedOnce(s)
    ensures CompletedOnce(Next(cfg, s, step))
            <==> !(Unfenced(step) && !step.Enqueue? && s.row.status == Done)
  {
    hide Effect, Unfenced;
    var entry := Effect(cfg, s.row, Enqueues(s.log), OwedBy(s.log, step), step).1;
    EffectOnCompletions(cfg, s.row, Enqueues(s.log), OwedBy(s.log, step), step);
    if entry.Some? {
      OneMoreEntry(s.log, entry.value);
    }
  }

  ghost predicate AlwaysCompletedOnce(cfg: Settings, s: State, steps: seq<Step>) {
    CompletedOnce(From(cfg, s, steps)) && (steps != [] ==> AlwaysCompletedOnce(cfg, s, steps[..|steps| - 1]))
  }

  lemma {:induction false} AlwaysCompletedOnceIff(cfg: Settings, s: State, steps: seq<Step>)
    requires CompletedOnce(s)
    ensures AlwaysCompletedOnce(cfg, s, steps) <==> WritesSpareDone(cfg, s, steps)
  {
    hide Next, CompletedOnce;
    if steps != [] {
      var before := steps[..|steps| - 1];
      AlwaysCompletedOnceIff(cfg, s, before);
      if AlwaysCompletedOnce(cfg, s, before) {
        NextCompletedOnce(cfg, From(cfg, s, before), steps[|steps| - 1]);
      }
    }
  }

  lemma StartsCompletedOnce(maxAttempts: int, at: real)
    ensures CompletedOnce(Start(maxAttempts, at))
  {
    OneMoreEntry([], Enqueued);
    assert [] + [Enqueued] == [Enqueued];
  }

  /**
   * At every moment of every interleaving a row is `done` exactly when the work
   * was completed once since its last enqueue, and never twice: this holds if and
   * only if no unfenced write but a new enqueue ever meets a row that is already
   * done.
   */
  lemma DoneIffCompletedOnce(cfg: Settings, maxAttempts: int, at: real, steps: seq<Step>)
    ensures AlwaysCompletedOnce(cfg, Start(maxAttempts, at), steps)
            <==> WritesSpareDone(cfg, Start(maxAttempts, at), steps)
  {
    hide AlwaysCompletedOnce, WritesSpareDone;
    StartsCompletedOnce(maxAttempts, at);
    AlwaysCompletedOnceIff(cfg, Start(maxAttempts, at), steps);
  }

  // ----- charges -------------------------------------------------------------------------------------

  function ChargesFor(log: seq<Entry>, enqueue: nat): nat {
    if log == [] then 0
    else
      var last := log[|log| - 1];
      ChargesFor(log[..|log| - 1], enqueue) + (if last.Charged? && last.enqueue == enqueue then 1 else 0)
  }

  function CompletionsFor(log: seq<Entry>, enqueue: nat): nat {
    if log == [] then 0
    else
      var last := log[|log| - 1];
      CompletionsFor(log[..|log| - 1], enqueue) + (if last.Completed? && last.enqueue == enqueue then 1 else 0)
  }

  function AutoCompletionsFor(log: seq<Entry>, enqueue: nat): nat {
    if log == [] then 0
    else
      var last := log[|log| - 1];
      AutoCompletionsFor(log[..|log| - 1], enqueue)
      + (if last.Completed? && last.enqueue == enqueue && last.auto then 1 else 0)
  }

  /** At most one completion, and charges for no more than the automatic ones. */
  predicate PaidAtMostOnce(log: seq<Entry>, enqueue: nat) {
    ChargesFor(log, enqueue) <= AutoCompletionsFor(log, enqueue) <= CompletionsFor(log, enqueue) <= 1
  }

  /** The books of one enqueue: charges are backed by its one completion, and whoever still owes has not paid. */
  ghost predicate Balanced(log: seq<Entry>, enqueue: nat) {
    && PaidAtMostOnce(log, enqueue)
    && (enqueue > Enqueues(log) ==> CompletionsFor(log, enqueue) == 0)
    && (enqueue == Enqueues(log) ==> CompletionsFor(log, enqueue) == Completions(log))
    && OwedOnce(log, enqueue)
  }

  /** At most one run owes for the enqueue, and while one does nothing was paid for it. */
  ghost predicate OwedOnce(log: seq<Entry>, enqueue: nat) {
    && (forall run :: Owed(log, run) == Some(enqueue) ==>
          ChargesFor(log, enqueue) == 0 && AutoCompletionsFor(log, enqueue) == 1)
    && (forall run, other :: Owed(log, run) == Owed(log, other) == Some(enqueue) ==> run == other)
  }

  /** What a run owes after one more entry. */
  function OwedAfter(log: seq<Entry>, e: Entry, run: RunId): Option<nat> {
    if e.Completed? && e.run == run then (if e.auto then Some(e.enqueue) else None)
    else if e.Charged? && e.run == run then None
    else Owed(log, run)
  }

  lemma OneMoreBilled(log: seq<Entry>, e: Entry, enqueue: nat)
    ensures ChargesFor(log + [e], enqueue)
            == ChargesFor(log, enqueue) + (if e.Charged? && e.enqueue == enqueue then 1 else 0)
    ensures CompletionsFor(log + [e], enqueue)
            == CompletionsFor(log, enqueue) + (if e.Completed? && e.enqueue == enqueue then 1 else 0)
    ensures AutoCompletionsFor(log + [e], enqueue)
            == AutoCompletionsFor(log, enqueue) + (if e.Completed? && e.enqueue == enqueue && e.auto then 1 else 0)
    ensures forall run :: Owed(log + [e], run) == OwedAfter(log, e, run)
  {
    assert (log + [e])[..|log|] == log;
  }

  lemma OwedOnceAfterEntry(log: seq<Entry>, e: Entry, enqueue: nat)
    requires PaidAtMostOnce(log, enqueue) && OwedOnce(log, enqueue)
    requires e.Completed? && e.enqueue == enqueue ==> CompletionsFor(log, enqueue) == 0
    requires e.Charged? ==> Owed(log, e.run) == Some(e.enqueue)
    ensures OwedOnce(log + [e], enqueue)
  {
    hide Owed, ChargesFor, CompletionsFor, AutoCompletionsFor;
    OneMoreBilled(log, e, enqueue);
  }

  lemma BalancedAfterEntry(log: seq<Entry>, e: Entry, enqueue: nat)
    requires Balanced(log, enqueue)
    requires e.Completed? ==> e.enqueue == Enqueues(log) && Completions(log) == 0
    requires e.Charged? ==> Owed(log, e.run) == Some(e.enqueue)
    ensures Balanced(log + [e], enqueue)
  {
    hide Owed, ChargesFor, CompletionsFor, AutoCompletionsFor, Completions, Enqueues, OwedOnce;
    OneMoreBilled(log, e, enqueue);
    OneMoreEntry(log, e);
    OwedOnceAfterEntry(log, e, enqueue);
    if e.Charged? && e.enqueue == enqueue {
      OwedIsUnpaid(log, e.run, enqueue);
    }
  }

  lemma OwedIsUnpaid(log: seq<Entry>, run: RunId, enqueue: nat)
    requires OwedOnce(log, enqueue) && Owed(log, run) == Some(enqueue)
    ensures ChargesFor(log, enqueue) == 0 && AutoCompletionsFor(log, enqueue) == 1
  {
    hide Owed, ChargesFor, AutoCompletionsFor;
  }

  /** The entry a step logs fits the log it is appended to. */
  lemma EntryFits(cfg: Settings, s: State, step: Step)
    requires CompletedOnce(s)
    ensures var entry := Effect(cfg, s.row, Enqueues(s.log), OwedBy(s.log, step), step).1;
            entry.Some? ==>
              (entry.value.Completed? ==> entry.value.enqueue == Enqueues(s.log) && Completions(s.log) == 0)
              && (entry.value.Charged? ==> Owed(s.log, entry.value.run) == Some(entry.value.enqueue))
  {
  }

  lemma {:induction false} BalancedAfterRun(cfg: Settings, s: State, steps: seq<Step>, enqueue: nat)
    requires AlwaysCompletedOnce(cfg, s, steps) && Balanced(s.log, enqueue)
    ensures Balanced(From(cfg, s, steps).log, enqueue)
  {
    hide Balanced, Effect, CompletedOnce;
    if steps != [] {
      var before, step := steps[..|steps| - 1], steps[|steps| - 1];
      BalancedAfterRun(cfg, s, before, enqueue);
      var s' := From(cfg, s, before);
      EntryFits(cfg, s', step);
      var entry := Effect(cfg, s'.row, Enqueues(s'.log), OwedBy(s'.log, step), step).1;
      if entry.Some? {
        BalancedAfterEntry(s'.log, entry.value, enqueue);
      }
    }
  }

  lemma StartsBalanced(enqueue: nat)
    ensures Balanced([Enqueued], enqueue)
  {
    OneMoreBilled([], Enqueued, enqueue);
    OneMoreEntry([], Enqueued);
    assert [] + [Enqueued] == [Enqueued];
  }

  /**
   * For every enqueue the automation quota is charged at most once, and only if that
   * enqueue has an accepted automatic completion, however late the charge lands.
   */
  lemma ChargedAtMostOncePerEnqueue(cfg: Settings, maxAttempts: int, at: real, steps: seq<Step>, enqueue: nat)
    requires WritesSpareDone(cfg, Start(maxAttempts, at), steps)
    ensures PaidAtMostOnce(From(cfg, Start(maxAttempts, at), steps).log, enqueue)
  {
    hide From, AlwaysCompletedOnce, WritesSpareDone;
    StartsBalanced(enqueue);
    DoneIffCompletedOnce(cfg, maxAttempts, at, steps);
    BalancedAfterRun(cfg, Start(maxAttempts, at), steps, enqueue);
  }

  /** Every charge in the log was owed by its own run at that moment. */
  ghost predicate Backed(log: seq<Entry>) {
    log != [] ==>
      var before, last := log[..|log| - 1], log[|log| - 1];
      Backed(before) && (last.Charged? ==> Owed(before, last.run) == Some(last.enqueue))
  }

  lemma {:induction false} OwedMeansCompleted(log: seq<Entry>, run: RunId) returns (i: nat)
    requires Owed(log, run).Some?
    ensures i < |log| && log[i].Completed? && log[i].run == run && log[i].auto
    ensures log[i].enqueue == Owed(log, run).value
    ensures forall j :: i < j < |log| ==> !((log[j].Completed? || log[j].Charged?) && log[j].run == run)
  {
    var last := log[|log| - 1];
    if last.Completed? && last.run == run {
      i := |log| - 1;
    } else {
      i := OwedMeansCompleted(log[..|log| - 1], run);
    }
  }

  lemma ChargeWasOwed(cfg: Settings, row: Row, enqueue: nat, log: seq<Entry>, step: Step)
    ensures var entry := Effect(cfg, row, enqueue, OwedBy(log, step), step).1;
            entry.Some? && entry.value.Charged? ==> Owed(log, entry.value.run) == Some(entry.value.enqueue)
  {
    hide Owed;
  }

  lemma {:induction false} BackedAt(log: seq<Entry>, j: nat)
    requires Backed(log) && j < |log| && log[j].Charged?
    ensures Owed(log[..j], log[j].run) == Some(log[j].enqueue)
  {
    if j < |log| - 1 {
      BackedAt(log[..|log| - 1], j);
      assert log[..|log| - 1][..j] == log[..j];
    }
  }

  lemma {:induction false} RunIsBacked(cfg: Settings, s: State, steps: seq<Step>)
    requires Backed(s.log)
    ensures Backed(From(cfg, s, steps).log)
  {
    if steps != [] {
      RunIsBacked(cfg, s, steps[..|steps| - 1]);
      NextIsBacked(cfg, From(cfg, s, steps[..|steps| - 1]), steps[|steps| - 1]);
    }
  }

  lemma NextIsBacked(cfg: Settings, s: State, step: Step)
    requires Backed(s.log)
    ensures Backed(Next(cfg, s, step).log)
  {
    hide Effect, Enqueues, Owed, OwedBy;
    var enqueue, owed := Enqueues(s.log), OwedBy(s.log, step);
    var entry := Effect(cfg, s.row, enqueue, owed, step).1;
    ChargeWasOwed(cfg, s.row, enqueue, s.log, step);
    if entry.Some? {
      assert (s.log + [entry.value])[..|s.log|] == s.log;
    }
  }

  /**
   * In any run at all, each charge is preceded by the accepted automatic completion
   * of the same run for the same enqueue, with neither a completion nor a charge of
   * that run in between.
   */
  lemma ChargePaysOwnCompletion(cfg: Settings, maxAttempts: int, at: real, steps: seq<Step>, j: nat)
    returns (i: nat)
    requires var log := From(cfg, Start(maxAttempts, at), steps).log; j < |log| && log[j].Charged?
    ensures var log := From(cfg, Start(maxAttempts, at), steps).log;
            && i < j && log[i].Completed? && log[i].auto
            && log[i].run == log[j].run && log[i].enqueue == log[j].enqueue
            && forall k :: i < k < j ==> !((log[k].Completed? || log[k].Charged?) && log[k].run == log[j].run)
  {
    hide From;
    var log := From(cfg, Start(maxAttempts, at), steps).log;
    RunIsBacked(cfg, Start(maxAttempts, at), steps);
    BackedAt(log, j);
    i := OwedMeansCompleted(log[..j], log[j].run);
  }

  // ----- what a statement leaves in the row, column by column ----------------------------------

  /** The row a statement leaves, whatever the log. */
  lemma SettledRow(cfg: Settings, s: State, step: Step)
    ensures Next(cfg, s, step).row == Effect(cfg, s.row, Enqueues(s.log), OwedBy(s.log, step), step).0
  {
    hide Effect, Enqueues, OwedBy;
  }

  /** The columns no lease touches. */
  predicate SameWork(a: Row, b: Row) {
    && a.scheduledAt == b.scheduledAt && a.attempts == b.attempts && a.maxAttempts == b.maxAttempts
    && a.reclaims == b.reclaims && a.pauses == b.pauses && a.result == b.result
  }

  /**
   * A claim by id takes a queued row that is due, the ordinary claim one that is still
   * queued, a heartbeat renews a row its worker holds, and nothing happens otherwise.
   * The lease then lasts: a reaper at time `at` takes the row exactly when the lease
   * has been over for more than the safety margin, re-queues it for that moment with
   * one more reclaim while neither budget is used up, and kills it otherwise.
   */
  lemma LeaseLasts(
    cfg: Settings, s: State, worker: WorkerId, now: real, leaseFor: real, step: Step, at: real)
    requires step in {Claim(worker, now, leaseFor), Take(worker, now, leaseFor), Renew(worker, now, leaseFor)}
    ensures var held := Next(cfg, s, step).row;
            var reaped := Next(cfg, Next(cfg, s, step), Reclaim(at)).row;
            if (if step.Renew? then s.row.status == Processing && s.row.lockedBy == worker
                else s.row.status == Queued && (step.Claim? ==> s.row.scheduledAt <= now)) then
              && held.status == Processing && held.lockedBy == worker && held.lease == Some(now + leaseFor)
              && SameWork(held, s.row)
              && (if at <= now + leaseFor + cfg.safety then reaped == held
                  else
                    && reaped.lockedBy == "" && reaped.lease == None
                    && SameWork(reaped.(scheduledAt := held.scheduledAt, reclaims := held.reclaims), held)
                    && (if held.attempts < held.maxAttempts && held.reclaims < cfg.maxReclaims then
                          reaped.status == Queued && reaped.scheduledAt == at && reaped.reclaims == held.reclaims + 1
                        else
                          reaped.status == Dead && reaped.scheduledAt == held.scheduledAt
                          && reaped.reclaims == held.reclaims))
            else held == s.row
  {
    hide Next;
    SettledRow(cfg, s, step);
    SettledRow(cfg, Next(cfg, s, step), Reclaim(at));
  }

  /** A row in flight that was never leased is reclaimed whenever a reaper looks. */
  lemma UnleasedIsReclaimed(cfg: Settings, s: State, at: real)
    requires s.row.status == Processing && s.row.lease == None
    ensures Next(cfg, s, Reclaim(at)).row.status in {Queued, Dead}
  {
    hide Enqueues;
  }

  /**
   * The four ways back into the queue: a new enqueue, a resume, an operator retry and a
   * user's answer. Each leaves a row a claim takes exactly from its due time on, keeps the
   * result and the reclaim count unless the work is enqueued anew, and gives back the
   * budgets it is meant to: all of them, none, failures and pauses, failures.
   */
  lemma BackInQueue(cfg: Settings, s: State, step: Step, worker: WorkerId, now: real, leaseFor: real)
    requires step.Enqueue? || step.Drain? || step.RetryDead? || step.Answer?
    ensures var row := Next(cfg, s, step).row;
            var claimed := Next(cfg, Next(cfg, s, step), Claim(worker, now, leaseFor)).row;
            var due := if step.Enqueue? then step.at else step.now;
            && row.status == Queued && row.scheduledAt == due
            && (claimed.status == Processing && claimed.lockedBy == worker <==> due <= now)
            && (if step.Enqueue? then
                  row.attempts == 0 && row.pauses == 0 && row.reclaims == 0 && row.result == None
                  && row.maxAttempts == step.maxAttempts && row.lockedBy == "" && row.lease == None
                else
                  && row.result == s.row.result && row.reclaims == s.row.reclaims
                  && row.maxAttempts == s.row.maxAttempts
                  && row.lockedBy == s.row.lockedBy && row.lease == s.row.lease
                  && row.attempts == (if step.Drain? then s.row.attempts else 0)
                  && row.pauses == (if step.RetryDead? then 0 else s.row.pauses))
  {
    hide Next;
    SettledRow(cfg, s, step);
    SettledRow(cfg, Next(cfg, s, step), Claim(worker, now, leaseFor));
  }

  /** A parked row whose time is up is dead and released, and nothing was spent on it. */
  lemma ClosedForGood(cfg: Settings, s: State)
    ensures var row := Next(cfg, s, CloseExpired).row;
            row.status == Dead && row.lockedBy == "" && row.lease == None && SameWork(row, s.row)
  {
    hide Enqueues;
  }

  /** A row is first enqueued due at its time, unlocked and with nothing spent. */
  lemma StartsFresh(maxAttempts: int, at: real)
    ensures var row := Start(maxAttempts, at).row;
            && row.status == Queued && row.scheduledAt == at && row.lockedBy == "" && row.lease == None
            && row.attempts == 0 && row.pauses == 0 && row.reclaims == 0
            && row.maxAttempts == maxAttempts && row.result == None
  {
  }

  // ----- where the protocol stops short ---------------------------------------------------------

  function Then(cfg: Settings, s: State, a: Step, b: Step): State {
    Next(cfg, Next(cfg, s, a), b)
  }

  /** An operator retry writes whatever row it meets. */
  lemma RetriedByOperator(cfg: Settings, s: State, now: real)
    ensures var retried := Next(cfg, s, RetryDead(now));
            && Claimable(retried.row, now) && Completions(retried.log) == Completions(s.log)
            && Enqueues(retried.log) == Enqueues(s.log)
            && forall g :: ChargesFor(retried.log, g) == ChargesFor(s.log, g)
  {
    OneMoreEntry(s.log, Retried);
    forall g
      ensures ChargesFor(s.log + [Retried], g) == ChargesFor(s.log, g)
    {
      OneMoreBilled(s.log, Retried, g);
    }
  }

  lemma FailedWithoutHandler(cfg: Settings, s: State, w: WorkerId)
    ensures var failed := Next(cfg, s, NoHandler(w));
            failed.row.status == Dead && Completions(failed.log) == Completions(s.log)
  {
    OneMoreEntry(s.log, Failed(w));
  }

  lemma ClaimedOnce(cfg: Settings, s: State, w: WorkerId, now: real)
    requires Claimable(s.row, now)
    ensures var claimed := Next(cfg, s, Claim(w, now, 1.0));
            && Owns(claimed.row, w) && Completions(claimed.log) == Completions(s.log)
            && Enqueues(claimed.log) == Enqueues(s.log)
            && forall g :: ChargesFor(claimed.log, g) == ChargesFor(s.log, g)
  {
    OneMoreEntry(s.log, Claimed(w));
    forall g
      ensures ChargesFor(s.log + [Claimed(w)], g) == ChargesFor(s.log, g)
    {
      OneMoreBilled(s.log, Claimed(w), g);
    }
  }

  lemma CompletionIsOwed(cfg: Settings, s: State, w: WorkerId, run: RunId, result: int)
    requires Owns(s.row, w)
    ensures var done := Next(cfg, s, Complete(w, run, result, true));
            && done.log == s.log + [Completed(w, run, true, Enqueues(s.log))]
            && Owed(done.log, run) == Some(Enqueues(s.log))
  {
    hide Enqueues;
    var e := Completed(w, run, true, Enqueues(s.log));
    assert (s.log + [e])[|s.log|] == e;
  }

  lemma OwedIsCharged(cfg: Settings, s: State, run: RunId)
    requires Owed(s.log, run).Some?
    ensures Next(cfg, s, Charge(run)).log == s.log + [Charged(run, Owed(s.log, run).value)]
  {
    hide Owed, Enqueues;
  }

  /** The enqueue the log is in was completed and charged once more. */
  predicate DoneOnceMore(log: seq<Entry>, log': seq<Entry>) {
    && Completions(log') == Completions(log) + 1
    && ChargesFor(log', Enqueues(log)) == ChargesFor(log, Enqueues(log)) + 1
  }

  lemma CompletedAndCharged(cfg: Settings, s: State, w: WorkerId, run: RunId)
    requires Owns(s.row, w)
    ensures DoneOnceMore(s.log, Then(cfg, s, Complete(w, run, 0, true), Charge(run)).log)
  {
    hide Next, Enqueues, Completions, ChargesFor, Owed, Owns;
    var g := Enqueues(s.log);
    var done := Next(cfg, s, Complete(w, run, 0, true));
    CompletionIsOwed(cfg, s, w, run, 0);
    OwedIsCharged(cfg, done, run);
    OneMoreEntry(s.log, Completed(w, run, true, g));
    OneMoreBilled(s.log, Completed(w, run, true, g), g);
    OneMoreEntry(done.log, Charged(run, g));
    OneMoreBilled(done.log, Charged(run, g), g);
  }

  /**
   * What happens otherwise: an operator retry that read the row while it was dead
   * writes it after a second retry had it re-queued and completed. The same enqueue
   * is completed and charged once more.
   */
  lemma StaleRetryCompletesTwice(cfg: Settings, s: State, worker: WorkerId, run: RunId, now: real)
    requires CompletedOnce(s) && s.row.status == Done
    ensures var g := Enqueues(s.log);
            var claimed := Then(cfg, s, RetryDead(now), Claim(worker, now, 1.0));
            var again := Then(cfg, claimed, Complete(worker, run, 0, true), Charge(run));
            Completions(again.log) == 2 && ChargesFor(again.log, g) == ChargesFor(s.log, g) + 1
  {
    hide Next;
    var retried := Next(cfg, s, RetryDead(now));
    RetriedByOperator(cfg, s, now);
    ClaimedOnce(cfg, retried, worker, now);
    CompletedAndCharged(cfg, Next(cfg, retried, Claim(worker, now, 1.0)), worker, run);
  }

  /** The same after the unfenced failure of a finished row and an operator retry. */
  lemma NoHandlerCanCompleteTwice(
    cfg: Settings, s: State, slow: WorkerId, other: WorkerId, run: RunId, now: real)
    requires CompletedOnce(s) && s.row.status == Done
    ensures var retried := Then(cfg, s, NoHandler(slow), RetryDead(now));
            var again := Then(cfg, retried, Claim(other, now, 1.0), Complete(other, run, 0, true));
            Completions(Next(cfg, again, Charge(run)).log) == 2
  {
    hide Next;
    var failed := Next(cfg, s, NoHandler(slow));
    var retried := Next(cfg, failed, RetryDead(now));
    FailedWithoutHandler(cfg, s, slow);
    RetriedByOperator(cfg, failed, now);
    ClaimedOnce(cfg, retried, other, now);
    CompletedAndCharged(cfg, Next(cfg, retried, Claim(other, now, 1.0)), other, run);
  }

  lemma ReclaimedAndClaimed(cfg: Settings, s: State, next: WorkerId, now: real)
    requires Stalled(cfg, s.row, now) && !CrashLooped(cfg, s.row)
    ensures Owns(Then(cfg, s, Reclaim(now), Claim(next, now, 1.0)).row, next)
  {
  }

  /** Of two completions only one by the row's owner counts, and the first of those. */
  lemma TwoCompletions(cfg: Settings, s: State, owner: WorkerId, a: WorkerId, x: RunId, y: RunId)
    requires Owns(s.row, owner)
    ensures var row := Then(cfg, s, Complete(a, x, x, false), Complete(owner, y, y, false)).row;
            row.status == Done && row.result == Some(if a == owner then x else y)
  {
  }

  /**
   * The fence compares worker ids, and all slots of a process share one. When a
   * row is reclaimed and claimed again, the superseded run completes it, and the run
   * that was claimed last is refused, exactly when both run under one id.
   */
  lemma SupersededRunWinsIffIdShared(
    cfg: Settings, s: State, w: WorkerId, next: WorkerId, now: real, slow: RunId, fast: RunId)
    requires Owns(s.row, w) && Stalled(cfg, s.row, now) && !CrashLooped(cfg, s.row) && slow != fast
    ensures var reclaimed := Then(cfg, s, Reclaim(now), Claim(next, now, 1.0));
            var row := Then(cfg, reclaimed, Complete(w, slow, slow, false), Complete(next, fast, fast, false)).row;
            row.status == Done && (row.result == Some(slow) <==> w == next)
            && (row.result == Some(fast) <==> w != next)
  {
    hide Next;
    ReclaimedAndClaimed(cfg, s, next, now);
    TwoCompletions(cfg, Then(cfg, s, Reclaim(now), Claim(next, now, 1.0)), next, w, slow, fast);
  }

  /**
   * An operator retry resets the failure and the pause budget but not the reclaim
   * count. A retried row survives its next lease expiry exactly when its reclaims
   * were below their cap and its failure budget is positive; otherwise it is dead
   * again at once.
   */
  lemma RetriedRowSurvivesExpiryIff(
    cfg: Settings, s: State, w: WorkerId, retryAt: real, leaseFor: real, later: real)
    requires s.row.status == Dead && later - cfg.safety > retryAt + leaseFor
    ensures var claimed := Then(cfg, s, RetryDead(retryAt), Claim(w, retryAt, leaseFor));
            var expired := Next(cfg, claimed, Reclaim(later)).row;
            && Owns(claimed.row, w)
            && expired.status == (if s.row.reclaims < cfg.maxReclaims && s.row.maxAttempts > 0 then Queued else Dead)
  {
    hide Enqueues, Owed, OwedBy;
  }

  // ----- a lease that is kept alive ---------------------------------------------------------------

  /**
   * What others can do up to time `until` while `worker` is still running. An
   * unfenced statement never reads a row in flight, so its write is due only when it
   * read the row before the claim; that late write is left out here.
   */
  predicate Meanwhile(step: Step, worker: WorkerId, until: real) {
    match step
    case Reclaim(now) => now <= until
    case _ => !Unfenced(step) && !OutcomeOf(step, worker)
  }

  lemma HeldOneStep(cfg: Settings, s: State, worker: WorkerId, until: real, step: Step)
    requires Owns(s.row, worker) && s.row.lease.Some? && s.row.lease.value >= until - cfg.safety
    requires Meanwhile(step, worker, until)
    ensures Next(cfg, s, step).row == s.row
  {
  }

  /** As long as the lease has not been over for more than the safety margin, nobody but its worker changes the row. */
  lemma {:induction false} HeldWhileLeaseLives(
    cfg: Settings, s: State, worker: WorkerId, until: real, steps: seq<Step>)
    requires Owns(s.row, worker) && s.row.lease.Some? && s.row.lease.value >= until - cfg.safety
    requires forall i :: 0 <= i < |steps| ==> Meanwhile(steps[i], worker, until)
    ensures From(cfg, s, steps).row == s.row
  {
    if steps != [] {
      HeldWhileLeaseLives(cfg, s, worker, until, steps[..|steps| - 1]);
      HeldOneStep(cfg, From(cfg, s, steps[..|steps| - 1]), worker, until, steps[|steps| - 1]);
    }
  }

  // ----- one run of a worker ------------------------------------------------------------------------

  /** How a handler ends; an exception has been classified already. */
  datatype HandlerOutcome =
    | Finished(result: int, auto: bool)
    | WantsInput(plan: int)
    | Raised(decision: Decision, retryAt: real)
    | DeadlineExceeded(retryAt: real)

  datatype Decision = Retry | Permanent | Outage | AskUser

  /** The one step a run's outcome takes, fenced by its worker. */
  function OutcomeStep(worker: WorkerId, run: RunId, outcome: HandlerOutcome): Step {
    match outcome
    case Finished(result, auto) => Complete(worker, run, result, auto)
    case WantsInput(plan) => Park(worker, Some(plan))
    case DeadlineExceeded(retryAt) => Fail(worker, true, retryAt)
    case Raised(decision, retryAt) =>
      match decision
      case Retry => Fail(worker, true, retryAt)
      case Permanent => Fail(worker, false, retryAt)
      case Outage => Pause(worker, retryAt)
      case AskUser => Park(worker, None)
  }

  /** A row that is still queued is claimed first. */
  function ClaimSteps(s: State, worker: WorkerId, now: real, leaseFor: real): seq<Step> {
    if s.row.status == Queued then [Claim(worker, now, leaseFor)] else []
  }

  /** The charge of an accepted automatic completion, after whatever else happened in between. */
  function ChargeSteps(held: bool, run: RunId, outcome: HandlerOutcome, between: seq<Step>): seq<Step> {
    if held && outcome.Finished? && outcome.auto then between + [Charge(run)] else []
  }

  /**
   * The steps of `_run_item`, with what everybody else did while the handler ran and
   * between completion and charge.
   */
  function RunSteps(
    cfg: Settings, s: State, worker: WorkerId, run: RunId, now: real, leaseFor: real, known: bool,
    meanwhile: seq<Step>, outcome: HandlerOutcome, between: seq<Step>): seq<Step>
  {
    var claim := ClaimSteps(s, worker, now, leaseFor);
    if s.row.status == Queued && !Claimable(s.row, now) then claim
    else if !known then claim + [NoHandler(worker)]
    else
      claim + meanwhile + [OutcomeStep(worker, run, outcome)]
      + ChargeSteps(Owns(From(cfg, s, claim + meanwhile).row, worker), run, outcome, between)
  }

  lemma FromSnoc(cfg: Settings, s: State, steps: seq<Step>, step: Step)
    ensures From(cfg, s, steps + [step]) == Next(cfg, From(cfg, s, steps), step)
  {
    assert (steps + [step])[..|steps|] == steps;
  }

  lemma FromNothing(cfg: Settings, s: State)
    ensures From(cfg, s, []) == s
  {
  }

  lemma FromOne(cfg: Settings, s: State, step: Step)
    ensures From(cfg, s, [step]) == Next(cfg, s, step) && From(cfg, s, []) == s
  {
    FromSnoc(cfg, s, [], step);
    assert [] + [step] == [step];
  }

  lemma LateOutcomeChangesNothing(cfg: Settings, s: State, worker: WorkerId, run: RunId, outcome: HandlerOutcome)
    requires !Owns(s.row, worker)
    ensures Next(cfg, s, OutcomeStep(worker, run, outcome)) == s
  {
  }

  /** What a handler's outcome makes of the row its run holds, read off the columns. */
  predicate LeavesRow(held: Row, outcome: HandlerOutcome, row: Row) {
    && row.lockedBy == "" && row.lease == None
    && row.maxAttempts == held.maxAttempts && row.reclaims == held.reclaims
    && match outcome
       case Finished(result, _) =>
         row.status == Done && row.result == Some(result) && row.attempts == held.attempts
         && row.pauses == held.pauses && row.scheduledAt == held.scheduledAt
       case WantsInput(plan) =>
         row.status == NeedsInput && row.result == Some(plan) && row.attempts == held.attempts
         && row.pauses == held.pauses && row.scheduledAt == held.scheduledAt
       case DeadlineExceeded(retryAt) =>
         row.attempts == held.attempts + 1 && row.pauses == held.pauses && row.result == held.result
         && (if held.attempts + 1 < held.maxAttempts then row.status == Queued && row.scheduledAt == retryAt
             else row.status == Dead && row.scheduledAt == held.scheduledAt)
       case Raised(Retry, retryAt) =>
         row.attempts == held.attempts + 1 && row.pauses == held.pauses && row.result == held.result
         && (if held.attempts + 1 < held.maxAttempts then row.status == Queued && row.scheduledAt == retryAt
             else row.status == Dead && row.scheduledAt == held.scheduledAt)
       case Raised(Permanent, _) =>
         row.status == Dead && row.attempts == held.attempts + 1 && row.pauses == held.pauses
         && row.result == held.result && row.scheduledAt == held.scheduledAt
       case Raised(Outage, retryAt) =>
         row.attempts == held.attempts && row.result == held.result
         && (if held.pauses < 12 then
               row.status == Paused && row.pauses == held.pauses + 1 && row.scheduledAt == retryAt
             else row.status == Dead && row.pauses == held.pauses && row.scheduledAt == held.scheduledAt)
       case Raised(AskUser, _) =>
         row.status == NeedsInput && row.result == held.result && row.attempts == held.attempts
         && row.pauses == held.pauses && row.scheduledAt == held.scheduledAt
  }

  /**
   * How a run that still holds its row leaves it, read off the columns, when nobody
   * comes between: a transient failure and a missed deadline cost an attempt and
   * re-queue the row while the budget lasts; a permanent failure kills it whatever the
   * budget; an outage costs a pause and no attempt, until twelve are spent; a question
   * parks it; a result finishes it. In every case lock and lease are given back, and
   * neither the reclaim count nor the budget changes.
   */
  lemma HeldRunEnds(
    cfg: Settings, s: State, worker: WorkerId, run: RunId, now: real, leaseFor: real, meanwhile: seq<Step>,
    outcome: HandlerOutcome)
    requires s.row.status == Queued ==> s.row.scheduledAt <= now
    requires var held := From(cfg, s, ClaimSteps(s, worker, now, leaseFor) + meanwhile).row;
             held.status == Processing && held.lockedBy == worker
    ensures LeavesRow(From(cfg, s, ClaimSteps(s, worker, now, leaseFor) + meanwhile).row, outcome,
                      From(cfg, s, RunSteps(cfg, s, worker, run, now, leaseFor, true, meanwhile, outcome, [])).row)
  {
    hide From, Next;
    var steps, settle := ClaimSteps(s, worker, now, leaseFor) + meanwhile, OutcomeStep(worker, run, outcome);
    FromSnoc(cfg, s, steps, settle);
    FromSnoc(cfg, s, steps + [settle], Charge(run));
    assert steps + [settle] + [] == steps + [settle] && [] + [Charge(run)] == [Charge(run)];
    SettledRow(cfg, From(cfg, s, steps), settle);
    SettledRow(cfg, From(cfg, s, steps + [settle]), Charge(run));
  }

  /**
   * An accepted automatic result is charged, to the enqueue it was accepted for, after
   * whatever others did in between; a run started by hand is not.
   */
  lemma HeldRunCharges(
    cfg: Settings, s: State, worker: WorkerId, run: RunId, now: real, leaseFor: real, meanwhile: seq<Step>,
    result: int, auto: bool, between: seq<Step>)
    requires s.row.status == Queued ==> s.row.scheduledAt <= now
    requires var held := From(cfg, s, ClaimSteps(s, worker, now, leaseFor) + meanwhile).row;
             held.status == Processing && held.lockedBy == worker
    requires forall i :: 0 <= i < |between| ==> NotOfRun(between[i], run)
    ensures var log := From(cfg, s, ClaimSteps(s, worker, now, leaseFor) + meanwhile).log;
            var end := From(cfg, s, RunSteps(cfg, s, worker, run, now, leaseFor, true, meanwhile,
                                             Finished(result, auto), between)).log;
            if auto then end != [] && end[|end| - 1] == Charged(run, Enqueues(log))
            else end == log + [Completed(worker, run, false, Enqueues(log))]
  {
    hide From, Next, Owed, Enqueues;
    var steps, settle := ClaimSteps(s, worker, now, leaseFor) + meanwhile, Complete(worker, run, result, auto);
    var held := From(cfg, s, steps);
    FromSnoc(cfg, s, steps, settle);
    if auto {
      FromConcat(cfg, s, steps + [settle], between);
      FromSnoc(cfg, s, steps + [settle] + between, Charge(run));
      assert steps + [settle] + between + [Charge(run)] == steps + [settle] + (between + [Charge(run)]);
      RunChargesItsOwnEnqueue(cfg, held, worker, run, result, between);
    } else {
      assert steps + [settle] + [] == steps + [settle];
      OwnerCompletesRow(cfg, held, worker, run, result, auto);
    }
  }

  lemma OwnerCompletesRow(cfg: Settings, s: State, worker: WorkerId, run: RunId, result: int, auto: bool)
    requires Owns(s.row, worker)
    ensures Next(cfg, s, Complete(worker, run, result, auto)).log
            == s.log + [Completed(worker, run, auto, Enqueues(s.log))]
  {
    hide Enqueues;
  }

  /**
   * How a run begins: a queued row that is not due is left alone, one that is due is
   * locked and leased before the handler starts, and without a handler it dies, one
   * failure later, even when the run did not claim it itself.
   */
  lemma RunBegins(
    cfg: Settings, s: State, worker: WorkerId, run: RunId, now: real, leaseFor: real, known: bool,
    outcome: HandlerOutcome)
    ensures var claimed := From(cfg, s, ClaimSteps(s, worker, now, leaseFor)).row;
            var row := From(cfg, s, RunSteps(cfg, s, worker, run, now, leaseFor, known, [], outcome, [])).row;
            && (s.row.status == Queued && s.row.scheduledAt > now ==> row == s.row)
            && (s.row.status == Queued && s.row.scheduledAt <= now ==>
                  claimed == s.row.(status := Processing, lockedBy := worker, lease := Some(now + leaseFor)))
            && (s.row.status != Queued ==> claimed == s.row)
            && (!known && (s.row.status == Queued ==> s.row.scheduledAt <= now) ==>
                  row.status == Dead && row.attempts == s.row.attempts + 1 && row.lockedBy == "" && row.lease == None)
  {
    hide From, Next;
    var claim := Claim(worker, now, leaseFor);
    FromOne(cfg, s, claim);
    SettledRow(cfg, s, claim);
    if !known && (s.row.status == Queued ==> s.row.scheduledAt <= now) {
      var steps := ClaimSteps(s, worker, now, leaseFor);
      FromSnoc(cfg, s, steps, NoHandler(worker));
      SettledRow(cfg, From(cfg, s, steps), NoHandler(worker));
    }
  }

  /**
   * A run that no longer holds its row when its handler returns leaves the row
   * as everybody else left it, and charges nothing, whatever the handler's outcome.
   */
  lemma DeposedRunChangesNothing(
    cfg: Settings, s: State, worker: WorkerId, run: RunId, now: real, leaseFor: real, meanwhile: seq<Step>,
    outcome: HandlerOutcome, between: seq<Step>)
    requires s.row.status == Queued ==> Claimable(s.row, now)
    requires !Owns(From(cfg, s, ClaimSteps(s, worker, now, leaseFor) + meanwhile).row, worker)
    ensures From(cfg, s, RunSteps(cfg, s, worker, run, now, leaseFor, true, meanwhile, outcome, between))
            == From(cfg, s, ClaimSteps(s, worker, now, leaseFor) + meanwhile)
  {
    hide Next, OutcomeStep;
    var steps, settle := ClaimSteps(s, worker, now, leaseFor) + meanwhile, OutcomeStep(worker, run, outcome);
    FromSnoc(cfg, s, steps, settle);
    LateOutcomeChangesNothing(cfg, From(cfg, s, steps), worker, run, outcome);
    assert steps + [settle] + [] == steps + [settle];
  }

  /** Steps of other runs: neither a completion nor a charge under this run's identity. */
  predicate NotOfRun(step: Step, run: RunId) {
    !((step.Complete? || step.Charge?) && step.run == run)
  }

  lemma NextKeepsOwed(cfg: Settings, s: State, step: Step, run: RunId)
    requires NotOfRun(step, run)
    ensures Owed(Next(cfg, s, step).log, run) == Owed(s.log, run)
  {
    var entry := Effect(cfg, s.row, Enqueues(s.log), OwedBy(s.log, step), step).1;
    if entry.Some? {
      assert (s.log + [entry.value])[..|s.log|] == s.log;
    }
  }

  lemma {:induction false} OthersKeepOwed(cfg: Settings, s: State, steps: seq<Step>, run: RunId)
    requires forall i :: 0 <= i < |steps| ==> NotOfRun(steps[i], run)
    ensures Owed(From(cfg, s, steps).log, run) == Owed(s.log, run)
  {
    hide Next, Owed;
    if steps != [] {
      OthersKeepOwed(cfg, s, steps[..|steps| - 1], run);
      NextKeepsOwed(cfg, From(cfg, s, steps[..|steps| - 1]), steps[|steps| - 1], run);
    }
  }

  /**
   * A run that held its row charges the enqueue its own completion was accepted for,
   * whatever others do between the two statements, a new enqueue included.
   */
  lemma RunChargesItsOwnEnqueue(
    cfg: Settings, s: State, worker: WorkerId, run: RunId, result: int, between: seq<Step>)
    requires Owns(s.row, worker) && forall i :: 0 <= i < |between| ==> NotOfRun(between[i], run)
    ensures var done := Next(cfg, s, Complete(worker, run, result, true));
            var log := From(cfg, done, between).log;
            Next(cfg, From(cfg, done, between), Charge(run)).log == log + [Charged(run, Enqueues(s.log))]
  {
    hide From, Next, Owed, Enqueues, Owns;
    var done := Next(cfg, s, Complete(worker, run, result, true));
    CompletionIsOwed(cfg, s, worker, run, result);
    OthersKeepOwed(cfg, done, between, run);
    OwedIsCharged(cfg, From(cfg, done, between), run);
  }

  class PipelineJob {
    const cfg: Settings
    var status: Status
    var lockedBy: string
    var lease: Option<real>
    var scheduledAt: real
    var attempts: int
    var maxAttempts: int
    var reclaims: int
    var pauses: int
    var result: Option<int>
    ghost var log: seq<Entry>

    constructor (cfg: Settings, maxAttempts: int, at: real)
      ensures Value() == Start(maxAttempts, at) && this.cfg == cfg
    {
      this.cfg := cfg;
      status, lockedBy, lease, scheduledAt := Queued, "", None, at;
      attempts, this.maxAttempts, reclaims, pauses, result := 0, maxAttempts, 0, 0, None;
      log := [Enqueued];
    }

    ghost function Value(): State
      reads this
    {
      State(Row(status, lockedBy, lease, scheduledAt, attempts, maxAttempts, reclaims, pauses, result), log)
    }

    predicate IsOwnedBy(worker: WorkerId)
      reads this
    {
      status == Processing && lockedBy == worker
    }

    /** A finished row is reused for the new work; work in flight is not enqueued again. */
    method Reuse(maxAttempts: int, at: real) returns (added: bool)
      modifies this
      ensures added <==> old(status) == Done || old(status) == Dead
      ensures added <==> Selected(old(Value()).row, Step.Enqueue(maxAttempts, at))
      ensures Value() == if added then Next(cfg, old(Value()), Step.Enqueue(maxAttempts, at)) else old(Value())
    {
      if status == Queued || status == Processing || status == NeedsInput || status == Paused {
        return false;
      }
      WriteReuse(maxAttempts, at);
      return true;
    }

    method WriteReuse(maxAttempts: int, at: real)
      modifies this
      ensures Value() == Next(cfg, old(Value()), Step.Enqueue(maxAttempts, at))
    {
      status, attempts, reclaims, pauses, this.maxAttempts := Queued, 0, 0, 0, maxAttempts;
      scheduledAt, lease, lockedBy, result := at, None, "", None;
      log := log + [Enqueued];
    }

    method ClaimItem(worker: WorkerId, now: real, leaseFor: real) returns (won: bool)
      modifies this
      ensures Value() == Next(cfg, old(Value()), Step.Claim(worker, now, leaseFor))
      ensures won <==> old(status) == Queued && old(scheduledAt) <= now
    {
      if !(status == Queued && scheduledAt <= now) {
        return false;
      }
      status, lockedBy, lease := Processing, worker, Some(now + leaseFor);
      log := log + [Claimed(worker)];
      return true;
    }

    /** The update of `claim`, after its select: only the status is tested again. */
    method TakeSelected(worker: WorkerId, now: real, leaseFor: real) returns (won: bool)
      modifies this
      ensures Value() == Next(cfg, old(Value()), Step.Take(worker, now, leaseFor))
      ensures won <==> old(status) == Queued
    {
      if status != Queued {
        return false;
      }
      status, lockedBy, lease := Processing, worker, Some(now + leaseFor);
      log := log + [Claimed(worker)];
      return true;
    }

    method RenewLease(worker: WorkerId, now: real, leaseFor: real) returns (extended: bool)
      modifies this
      ensures Value() == Next(cfg, old(Value()), Step.Renew(worker, now, leaseFor))
      ensures extended <==> old(IsOwnedBy(worker))
    {
      if !(status == Processing && lockedBy == worker) {
        return false;
      }
      lease := Some(now + leaseFor);
      return true;
    }

    method CompleteRun(worker: WorkerId, ghost run: RunId, answer: int, ghost auto: bool) returns (finished: bool)
      modifies this
      ensures Value() == Next(cfg, old(Value()), Step.Complete(worker, run, answer, auto))
      ensures finished <==> old(IsOwnedBy(worker))
    {
      if !(status == Processing && lockedBy == worker) {
        return false;
      }
      status, lease, lockedBy, result := Done, None, "", Some(answer);
      log := log + [Completed(worker, run, auto, Enqueues(log))];
      return true;
    }

    /** `fail` itself asks nobody. */
    method RecordFailure(ghost worker: WorkerId, retryable: bool, retryAt: real)
      modifies this
      ensures Value().row == FailedRow(old(Value()).row, retryable, retryAt)
      ensures Value().log == old(Value()).log + [Failed(worker)]
    {
      lockedBy, lease := "", None;
      attempts := attempts + 1;
      log := log + [Failed(worker)];
      if retryable && attempts < maxAttempts {
        status, scheduledAt := Queued, retryAt;
        return;
      }
      status := Dead;
    }

    method PauseRun(ghost worker: WorkerId, retryAt: real)
      requires IsOwnedBy(worker)
      modifies this
      ensures Value() == Next(cfg, old(Value()), Step.Pause(worker, retryAt))
    {
      lockedBy, lease := "", None;
      var counted := pauses + 1;
      if counted > AI_PAUSE_MAX {
        status := Dead;
        log := log + [GaveUp];
        return;
      }
      pauses, status, scheduledAt := counted, Paused, retryAt;
      log := log + [PausedBy(worker)];
    }

    method NeedInput(ghost worker: WorkerId, plan: Option<int>)
      requires IsOwnedBy(worker)
      modifies this
      ensures Value() == Next(cfg, old(Value()), Step.Park(worker, plan))
    {
      status, lockedBy, lease := NeedsInput, "", None;
      if plan.Some? {
        result := plan;
      }
      log := log + [ParkedBy(worker)];
    }

    method RecoverStalled(now: real) returns (recovered: bool)
      modifies this
      ensures Value() == Next(cfg, old(Value()), Step.Reclaim(now))
      ensures recovered <==> Stalled(cfg, old(Value()).row, now)
    {
      var cutoff := now - cfg.safety;
      if !(status == Processing && (lease.None? || lease.value < cutoff)) {
        return false;
      }
      lockedBy, lease := "", None;
      if attempts >= maxAttempts || reclaims >= cfg.maxReclaims {
        status := Dead;
        log := log + [Abandoned];
      } else {
        status, scheduledAt, reclaims := Queued, now, reclaims + 1;
        log := log + [Reclaimed];
      }
      return true;
    }

    method Resume(now: real, force: bool)
      modifies this
      ensures Value() == if old(status) == Paused && (force || old(scheduledAt) <= now)
                         then Next(cfg, old(Value()), Step.Drain(now, force)) else old(Value())
      ensures Selected(old(Value()).row, Step.Drain(now, force))
         <==> old(status) == Paused && (force || old(scheduledAt) <= now)
    {
      if status == Paused && (force || scheduledAt <= now) {
        WriteResume(now, force);
      }
    }

    method WriteResume(now: real, ghost force: bool)
      modifies this
      ensures Value() == Next(cfg, old(Value()), Step.Drain(now, force))
    {
      status, scheduledAt := Queued, now;
    }

    method Retry(now: real)
      modifies this
      ensures Value() == if old(status) == Dead then Next(cfg, old(Value()), Step.RetryDead(now)) else old(Value())
      ensures Selected(old(Value()).row, Step.RetryDead(now)) <==> old(status) == Dead
    {
      if status == Dead {
        WriteRetry(now);
      }
    }

    method WriteRetry(now: real)
      modifies this
      ensures Value() == Next(cfg, old(Value()), Step.RetryDead(now))
    {
      status, attempts, scheduledAt, pauses := Queued, 0, now, 0;
      log := log + [Retried];
    }

    /** `_requeue_application`: the user's answer re-queues a parked row with its failures forgiven. */
    method TakeAnswer(now: real) returns (requeued: bool)
      modifies this
      ensures requeued <==> old(status) == NeedsInput
      ensures requeued <==> Selected(old(Value()).row, Step.Answer(now))
      ensures Value() == if requeued then Next(cfg, old(Value()), Step.Answer(now)) else old(Value())
    {
      if status == NeedsInput {
        WriteAnswer(now);
        return true;
      }
      return false;
    }

    method WriteAnswer(now: real)
      modifies this
      ensures Value() == Next(cfg, old(Value()), Step.Answer(now))
    {
      status, attempts, scheduledAt := Queued, 0, now;
      log := log + [Answered];
    }

    method Expire()
      modifies this
      ensures Value() == if old(status) == NeedsInput then Next(cfg, old(Value()), CloseExpired) else old(Value())
      ensures Selected(old(Value()).row, CloseExpired) <==> old(status) == NeedsInput
    {
      if status == NeedsInput {
        WriteExpire();
      }
    }

    method WriteExpire()
      modifies this
      ensures Value() == Next(cfg, old(Value()), CloseExpired)
    {
      status, lease, lockedBy := Dead, None, "";
    }

    /** The outcome of a handler that ran on this row: every write is fenced. */
    method Settle(worker: WorkerId, ghost run: RunId, outcome: HandlerOutcome) returns (finished: bool)
      modifies this
      ensures Value() == Next(cfg, old(Value()), OutcomeStep(worker, run, outcome))
      ensures finished <==> old(IsOwnedBy(worker)) && outcome.Finished?
    {
      if outcome.Finished? {
        finished := CompleteRun(worker, run, outcome.result, outcome.auto);
        return;
      }
      if !IsOwnedBy(worker) {
        return false;
      }
      match outcome {
        case WantsInput(plan) => NeedInput(worker, Some(plan));
        case DeadlineExceeded(retryAt) => RecordFailure(worker, true, retryAt);
        case Raised(decision, retryAt) =>
          match decision {
            case Retry => RecordFailure(worker, true, retryAt);
            case Permanent => RecordFailure(worker, false, retryAt);
            case Outage => PauseRun(worker, retryAt);
            case AskUser => NeedInput(worker, None);
          }
      }
      return false;
    }

    /** Somebody else's statement; of an unfenced one, the write. */
    method Execute(step: Step)
      modifies this
      ensures Value() == Next(cfg, old(Value()), step)
    {
      match step {
        case Enqueue(budget, at) => WriteReuse(budget, at);
        case Claim(worker, now, leaseFor) => var _ := ClaimItem(worker, now, leaseFor);
        case Take(worker, now, leaseFor) => var _ := TakeSelected(worker, now, leaseFor);
        case Renew(worker, now, leaseFor) => var _ := RenewLease(worker, now, leaseFor);
        case Complete(worker, run, answer, auto) => var _ := CompleteRun(worker, run, answer, auto);
        case Charge(run) => ChargeRun(run);
        case Fail(worker, retryable, retryAt) =>
          if IsOwnedBy(worker) {
            RecordFailure(worker, retryable, retryAt);
          }
        case Pause(worker, retryAt) =>
          if IsOwnedBy(worker) {
            PauseRun(worker, retryAt);
          }
        case Park(worker, plan) =>
          if IsOwnedBy(worker) {
            NeedInput(worker, plan);
          }
        case NoHandler(worker) => RecordFailure(worker, false, 0.0);
        case Reclaim(now) => var _ := RecoverStalled(now);
        case Drain(now, force) => WriteResume(now, force);
        case RetryDead(now) => WriteRetry(now);
        case Answer(now) => WriteAnswer(now);
        case CloseExpired => WriteExpire();
      }
    }

    /** The charge of a run; it only shows in the log. */
    method ChargeRun(ghost run: RunId)
      modifies this
      ensures Value() == Next(cfg, old(Value()), Charge(run))
    {
      ghost var owed := Owed(log, run);
      log := if owed.Some? then log + [Charged(run, owed.value)] else log;
    }

    method Interleave(steps: seq<Step>)
      modifies this
      ensures Value() == From(cfg, old(Value()), steps)
    {
      for i := 0 to |steps|
        invariant Value() == From(cfg, old(Value()), steps[..i])
      {
        assert steps[..i + 1][..i] == steps[..i];
        Execute(steps[i]);
      }
      assert steps[..|steps|] == steps;
    }

    /**
     * `_run_item`: claim if still queued, run the handler while everybody else
     * takes their steps, settle, and charge if this run's own completion landed. The
     * row ends where the protocol's own steps take it.
     */
    method RunItem(
      worker: WorkerId, run: RunId, now: real, leaseFor: real, known: bool, meanwhile: seq<Step>,
      outcome: HandlerOutcome, between: seq<Step>)
      modifies this
      ensures Value() == From(cfg, old(Value()), RunSteps(cfg, old(Value()), worker, run, now, leaseFor, known,
                                                          meanwhile, outcome, between))
    {
      hide From, Next, OutcomeStep;
      ghost var s, claim := Value(), ClaimSteps(Value(), worker, now, leaseFor);
      FromOne(cfg, s, Step.Claim(worker, now, leaseFor));
      if status == Queued {
        var won := ClaimItem(worker, now, leaseFor);
        if !won {
          return;
        }
      }
      assert Value() == From(cfg, s, claim);
      if !known {
        FromSnoc(cfg, s, claim, NoHandler(worker));
        Execute(NoHandler(worker));
        return;
      }
      FromConcat(cfg, s, claim, meanwhile);
      Interleave(meanwhile);
      FromSnoc(cfg, s, claim + meanwhile, OutcomeStep(worker, run, outcome));
      var finished := Settle(worker, run, outcome);
      ghost var steps := claim + meanwhile + [OutcomeStep(worker, run, outcome)];
      if finished && outcome.auto {
        FromConcat(cfg, s, steps, between);
        Interleave(between);
        FromSnoc(cfg, s, steps + between, Charge(run));
        ChargeRun(run);
        assert steps + between + [Charge(run)] == steps + (between + [Charge(run)]);
      } else {
        assert steps + [] == steps;
      }
    }
  }
}
