/**
 * Claiming from the whole queue: the next item is the most urgent runnable one,
 * and a pipeline with a slot budget is skipped while its live leases fill it. A
 * worker that finds its item queued claims it by id, without asking for a slot.
 *
 * Rows are numbered in arrival order and never deleted; a row number is its id.
 */
module SlotBudget {
  import opened Wrappers

  datatype Item = Item(pipeline: string, status: Status, priority: int, scheduledAt: real, lease: Option<real>)

  /** `Idle` stands for every status that is neither queued nor processing. */
  datatype Status = Queued | Processing | Idle

  type Table = seq<Item>

  /** `WORKER_PIPELINE_LIMITS`; a missing, zero or negative count means no budget. */
  type Limits = map<string, int>

  datatype Step =
    | Add(at: real, item: Item)
    | Claim(at: real, scope: set<string>, leaseFor: real)
    | ClaimItem(at: real, id: nat, leaseFor: real)
    | Renew(at: real, id: nat, leaseFor: real)
    | Leave(at: real, id: nat, item: Item)

  // ----- counting live leases --------------------------------------------------------------

  /** A row occupies a slot while its lease is over in the future, or was never written. */
  predicate Live(item: Item, pipeline: string, now: real) {
    && item.status == Processing && item.pipeline == pipeline
    && (item.lease.None? || item.lease.value > now)
  }

  function LiveCount(t: Table, pipeline: string, now: real): nat {
    if t == [] then 0
    else LiveCount(t[..|t| - 1], pipeline, now) + (if Live(t[|t| - 1], pipeline, now) then 1 else 0)
  }

  function Limit(limits: Limits, pipeline: string): int {
    if pipeline in limits then limits[pipeline] else 0
  }

  /** `_pipelines_at_capacity` for one pipeline. */
  predicate AtCapacity(t: Table, limits: Limits, pipeline: string, now: real) {
    Limit(limits, pipeline) > 0 && LiveCount(t, pipeline, now) >= Limit(limits, pipeline)
  }

  // ----- claiming ------------------------------------------------------------------------------

  predicate Claimable(t: Table, limits: Limits, scope: set<string>, now: real, item: Item) {
    && item.status == Queued && item.scheduledAt <= now
    && item.pipeline in scope && !AtCapacity(t, limits, item.pipeline, now)
  }

  /** Ordered by priority, then schedule; the row with the smaller id comes first among equals. */
  predicate Sooner(a: Item, b: Item) {
    a.priority < b.priority || (a.priority == b.priority && a.scheduledAt < b.scheduledAt)
  }

  /** The first `n` rows ordered by urgency, limited to one. */
  function Candidate(t: Table, limits: Limits, scope: set<string>, now: real, n: nat): (c: Option<nat>)
    requires n <= |t|
    ensures c.Some? ==> c.value < n && Claimable(t, limits, scope, now, t[c.value])
  {
    if n == 0 then None
    else
      var before := Candidate(t, limits, scope, now, n - 1);
      if !Claimable(t, limits, scope, now, t[n - 1]) then before
      else if before.None? || Sooner(t[n - 1], t[before.value]) then Some(n - 1)
      else before
  }

  /** The claim finds something iff something is claimable, and nothing claimable is more urgent. */
  lemma {:induction false} CandidateIsMostUrgent(t: Table, limits: Limits, scope: set<string>, now: real, n: nat)
    requires n <= |t|
    ensures var c := Candidate(t, limits, scope, now, n);
            forall i :: 0 <= i < n && Claimable(t, limits, scope, now, t[i]) ==>
              c.Some? && !Sooner(t[i], t[c.value]) && (i < c.value ==> Sooner(t[c.value], t[i]))
  {
    if n > 0 {
      CandidateIsMostUrgent(t, limits, scope, now, n - 1);
    }
  }

  /** The rows that hold a slot of the pipeline. */
  ghost function Holding(t: Table, pipeline: string, now: real): set<nat> {
    set i: nat | i < |t| && t[i].status == Processing && t[i].pipeline == pipeline
                 && (t[i].lease == None || t[i].lease.value > now)
  }

  /** The count is the number of rows in flight whose lease is not over. */
  lemma {:induction false} LiveCountCountsHolders(t: Table, pipeline: string, now: real)
    ensures LiveCount(t, pipeline, now) == |Holding(t, pipeline, now)|
  {
    if t != [] {
      var before, last := t[..|t| - 1], |t| - 1;
      LiveCountCountsHolders(before, pipeline, now);
      if Live(t[last], pipeline, now) {
        assert Holding(t, pipeline, now) == Holding(before, pipeline, now) + {last};
      } else {
        assert Holding(t, pipeline, now) == Holding(before, pipeline, now);
      }
    }
  }

  /** A queued row of the scope that is due and whose pipeline has no budget or a free slot, read off the columns. */
  ghost predicate MayRun(t: Table, limits: Limits, scope: set<string>, now: real, i: nat) {
    && i < |t| && t[i].status == Queued && t[i].scheduledAt <= now && t[i].pipeline in scope
    && (t[i].pipeline in limits && limits[t[i].pipeline] > 0 ==>
          |Holding(t, t[i].pipeline, now)| < limits[t[i].pipeline])
  }

  /**
   * A claim leases exactly one row when any may run, and none otherwise: the row of the
   * smallest priority number, among those the one scheduled first, among those the one
   * with the smallest id. Every other row stays as it is.
   */
  lemma ClaimTakesFirst(t: Table, limits: Limits, scope: set<string>, now: real, leaseFor: real) returns (c: nat)
    ensures var t' := Next(limits, t, Claim(now, scope, leaseFor));
            if !exists i: nat :: MayRun(t, limits, scope, now, i) then t' == t
            else
              && MayRun(t, limits, scope, now, c)
              && t' == t[c := t[c].(status := Processing, lease := Some(now + leaseFor))]
              && forall i: nat :: MayRun(t, limits, scope, now, i) ==>
                   || t[c].priority < t[i].priority
                   || (t[c].priority == t[i].priority && t[c].scheduledAt < t[i].scheduledAt)
                   || (t[c].priority == t[i].priority && t[c].scheduledAt == t[i].scheduledAt && c <= i)
  {
    hide Candidate, Holding, LiveCount;
    var found := Candidate(t, limits, scope, now, |t|);
    CandidateIsMostUrgent(t, limits, scope, now, |t|);
    forall i: nat | i < |t|
      ensures MayRun(t, limits, scope, now, i) <==> Claimable(t, limits, scope, now, t[i])
    {
      LiveCountCountsHolders(t, t[i].pipeline, now);
    }
    c := if found.Some? then found.value else 0;
  }

  function Next(limits: Limits, t: Table, step: Step): Table {
    match step
    case Add(_, item) => t + [item]
    case Claim(now, scope, leaseFor) =>
      var c := Candidate(t, limits, scope, now, |t|);
      if c.None? then t
      else t[c.value := t[c.value].(status := Processing, lease := Some(now + leaseFor))]
    case ClaimItem(now, id, leaseFor) =>
      if id < |t| && t[id].status == Queued && t[id].scheduledAt <= now then
        t[id := t[id].(status := Processing, lease := Some(now + leaseFor))]
      else t
    case Renew(now, id, leaseFor) =>
      if id < |t| && t[id].status == Processing then t[id := t[id].(lease := Some(now + leaseFor))] else t
    case Leave(_, id, item) =>
      if id < |t| then t[id := item] else t
  }

  /** New rows are not in flight, and whatever takes a row out of flight leaves it so. */
  predicate Plausible(step: Step) {
    match step
    case Add(_, item) => item.status != Processing
    case Leave(_, _, item) => item.status != Processing
    case _ => true
  }

  // ----- how a step changes the count -------------------------------------------------------------

  lemma {:induction false} CountOfUpdate(t: Table, id: nat, item: Item, pipeline: string, now: real)
    requires id < |t|
    ensures LiveCount(t[id := item], pipeline, now)
            == LiveCount(t, pipeline, now)
               + (if Live(item, pipeline, now) then 1 else 0) - (if Live(t[id], pipeline, now) then 1 else 0)
  {
    var before, updated := t[..|t| - 1], t[id := item];
    if id == |t| - 1 {
      assert updated[..|t| - 1] == before;
    } else {
      assert updated[..|t| - 1] == before[id := item];
      CountOfUpdate(before, id, item, pipeline, now);
    }
  }

  /** Time alone only frees slots. */
  lemma {:induction false} CountFalls(t: Table, pipeline: string, early: real, late: real)
    requires early <= late
    ensures LiveCount(t, pipeline, late) <= LiveCount(t, pipeline, early)
  {
    if t != [] {
      CountFalls(t[..|t| - 1], pipeline, early, late);
    }
  }

  /** A late heartbeat brings a lease back to life that stopped counting, while its slot is taken. */
  predicate RevivesOverBudget(limits: Limits, t: Table, step: Step, pipeline: string) {
    && step.Renew? && step.id < |t| && t[step.id].status == Processing && t[step.id].pipeline == pipeline
    && !Live(t[step.id], pipeline, step.at) && step.leaseFor > 0.0
    && LiveCount(t, pipeline, step.at) >= Limit(limits, pipeline)
  }

  /** A claim by id, which asks for no budget, takes a row of a pipeline that has no free slot. */
  predicate ClaimsOverBudget(limits: Limits, t: Table, step: Step, pipeline: string) {
    && step.ClaimItem? && step.id < |t| && t[step.id].status == Queued && t[step.id].scheduledAt <= step.at
    && t[step.id].pipeline == pipeline && step.leaseFor > 0.0
    && LiveCount(t, pipeline, step.at) >= Limit(limits, pipeline)
  }

  predicate Overfills(limits: Limits, t: Table, step: Step, pipeline: string) {
    RevivesOverBudget(limits, t, step, pipeline) || ClaimsOverBudget(limits, t, step, pipeline)
  }

  ghost predicate Within(limits: Limits, t: Table, pipeline: string, now: real) {
    LiveCount(t, pipeline, now) <= Limit(limits, pipeline)
  }

  lemma ClaimStaysWithin(limits: Limits, t: Table, step: Step, pipeline: string)
    requires step.Claim? && Limit(limits, pipeline) > 0 && Within(limits, t, pipeline, step.at)
    ensures Within(limits, Next(limits, t, step), pipeline, step.at)
  {
    var c := Candidate(t, limits, step.scope, step.at, |t|);
    if c.Some? {
      var claimed := t[c.value].(status := Processing, lease := Some(step.at + step.leaseFor));
      CountOfUpdate(t, c.value, claimed, pipeline, step.at);
      assert !AtCapacity(t, limits, t[c.value].pipeline, step.at);
    }
  }

  lemma RenewStaysWithinIff(limits: Limits, t: Table, step: Step, pipeline: string)
    requires step.Renew? && Within(limits, t, pipeline, step.at)
    ensures Within(limits, Next(limits, t, step), pipeline, step.at)
            <==> !RevivesOverBudget(limits, t, step, pipeline)
  {
    if step.id < |t| && t[step.id].status == Processing {
      CountOfUpdate(t, step.id, t[step.id].(lease := Some(step.at + step.leaseFor)), pipeline, step.at);
    }
  }

  lemma ClaimItemStaysWithinIff(limits: Limits, t: Table, step: Step, pipeline: string)
    requires step.ClaimItem? && Within(limits, t, pipeline, step.at)
    ensures Within(limits, Next(limits, t, step), pipeline, step.at)
            <==> !ClaimsOverBudget(limits, t, step, pipeline)
  {
    if step.id < |t| {
      var claimed := t[step.id].(status := Processing, lease := Some(step.at + step.leaseFor));
      CountOfUpdate(t, step.id, claimed, pipeline, step.at);
    }
  }

  lemma NextStaysWithinIff(limits: Limits, t: Table, step: Step, pipeline: string, clock: real)
    requires Limit(limits, pipeline) > 0 && Within(limits, t, pipeline, clock) && clock <= step.at
    requires Plausible(step)
    ensures Within(limits, Next(limits, t, step), pipeline, step.at)
            <==> !Overfills(limits, t, step, pipeline)
  {
    CountFalls(t, pipeline, clock, step.at);
    match step
    case Add(_, item) => assert (t + [item])[..|t|] == t;
    case Claim(_, _, _) => ClaimStaysWithin(limits, t, step, pipeline);
    case ClaimItem(_, _, _) => ClaimItemStaysWithinIff(limits, t, step, pipeline);
    case Renew(_, _, _) => RenewStaysWithinIff(limits, t, step, pipeline);
    case Leave(_, id, item) =>
      if id < |t| {
        CountOfUpdate(t, id, item, pipeline, step.at);
      }
  }

  /** A row that leaves the flight gives its slot back; a late heartbeat or a claim by id takes exactly one. */
  lemma SlotsTakenAndGiven(limits: Limits, t: Table, id: nat, item: Item, pipeline: string, now: real, leaseFor: real)
    requires id < |t| && t[id].pipeline == pipeline && leaseFor > 0.0
    ensures var left := Next(limits, t, Leave(now, id, item));
            |left| == |t| && left[id] == item
            && (id in Holding(t, pipeline, now) && item.status != Processing ==>
                  LiveCount(left, pipeline, now) == LiveCount(t, pipeline, now) - 1)
    ensures var renewed := Next(limits, t, Renew(now, id, leaseFor));
            t[id].status == Processing ==>
              LiveCount(renewed, pipeline, now)
              == LiveCount(t, pipeline, now) + (if id in Holding(t, pipeline, now) then 0 else 1)
    ensures var claimed := Next(limits, t, ClaimItem(now, id, leaseFor));
            LiveCount(claimed, pipeline, now)
            == LiveCount(t, pipeline, now) + (if t[id].status == Queued && t[id].scheduledAt <= now then 1 else 0)
  {
    hide Candidate, LiveCount;
    CountOfUpdate(t, id, item, pipeline, now);
    CountOfUpdate(t, id, t[id].(lease := Some(now + leaseFor)), pipeline, now);
    CountOfUpdate(t, id, t[id].(status := Processing, lease := Some(now + leaseFor)), pipeline, now);
  }

  // ----- whole runs ---------------------------------------------------------------------------------

  function After(limits: Limits, t: Table, steps: seq<Step>): Table {
    if steps == [] then t else Next(limits, After(limits, t, steps[..|steps| - 1]), steps[|steps| - 1])
  }

  function Clock(t0: real, steps: seq<Step>): real {
    if steps == [] then t0 else steps[|steps| - 1].at
  }

  /** Claims happen one after another on a clock that never runs backwards. */
  ghost predicate Ordered(t0: real, steps: seq<Step>) {
    steps != [] ==>
      var before := steps[..|steps| - 1];
      Ordered(t0, before) && Clock(t0, before) <= Clock(t0, steps) && Plausible(steps[|steps| - 1])
  }

  ghost predicate AlwaysWithin(limits: Limits, t: Table, t0: real, steps: seq<Step>, pipeline: string) {
    && Within(limits, After(limits, t, steps), pipeline, Clock(t0, steps))
    && (steps != [] ==> AlwaysWithin(limits, t, t0, steps[..|steps| - 1], pipeline))
  }

  ghost predicate NeverOverfills(limits: Limits, t: Table, steps: seq<Step>, pipeline: string) {
    steps != [] ==>
      var before := steps[..|steps| - 1];
      && NeverOverfills(limits, t, before, pipeline)
      && !Overfills(limits, After(limits, t, before), steps[|steps| - 1], pipeline)
  }

  /**
   * The slot budget of a pipeline bounds its live leases at all times of every run
   * of one-at-a-time claims if and only if no heartbeat revives an expired lease
   * whose slot was given away in the meantime, and no claim by id takes a row while
   * its pipeline is full.
   */
  lemma {:induction false} BudgetHoldsIff(
    limits: Limits, t: Table, t0: real, steps: seq<Step>, pipeline: string)
    requires Limit(limits, pipeline) > 0 && Within(limits, t, pipeline, t0) && Ordered(t0, steps)
    ensures AlwaysWithin(limits, t, t0, steps, pipeline) <==> NeverOverfills(limits, t, steps, pipeline)
  {
    hide Next, Overfills;
    if steps != [] {
      var before := steps[..|steps| - 1];
      BudgetHoldsIff(limits, t, t0, before, pipeline);
      if AlwaysWithin(limits, t, t0, before, pipeline) {
        NextStaysWithinIff(limits, After(limits, t, before), steps[|steps| - 1], pipeline, Clock(t0, before));
      }
    }
  }

  lemma ClaimTakesSlot(limits: Limits, t: Table, id: nat, pipeline: string, now: real, leaseFor: real)
    requires Candidate(t, limits, {pipeline}, now, |t|).Some? && leaseFor > 0.0
    requires id < |t| && t[id].status == Processing
    ensures var claimed := Next(limits, t, Claim(now, {pipeline}, leaseFor));
            && LiveCount(claimed, pipeline, now) == LiveCount(t, pipeline, now) + 1
            && |claimed| == |t| && claimed[id] == t[id]
  {
    var c := Candidate(t, limits, {pipeline}, now, |t|).value;
    CountOfUpdate(t, c, t[c].(status := Processing, lease := Some(now + leaseFor)), pipeline, now);
  }

  lemma RenewTakesSlot(limits: Limits, t: Table, id: nat, pipeline: string, now: real, leaseFor: real)
    requires id < |t| && t[id].status == Processing && t[id].pipeline == pipeline && leaseFor > 0.0
    requires !Live(t[id], pipeline, now)
    ensures LiveCount(Next(limits, t, Renew(now, id, leaseFor)), pipeline, now) == LiveCount(t, pipeline, now) + 1
  {
    CountOfUpdate(t, id, t[id].(lease := Some(now + leaseFor)), pipeline, now);
  }

  /** It is possible: an expired lease stops counting, its slot is claimed, and its heartbeat lands after all. */
  lemma RevivalOvershoots(limits: Limits, t: Table, id: nat, pipeline: string, now: real, leaseFor: real)
    requires id < |t| && t[id].status == Processing && t[id].pipeline == pipeline && leaseFor > 0.0
    requires t[id].lease.Some? && t[id].lease.value <= now
    requires Limit(limits, pipeline) > 0 && LiveCount(t, pipeline, now) + 1 == Limit(limits, pipeline)
    requires var c := Candidate(t, limits, {pipeline}, now, |t|); c.Some?
    ensures var claimed := Next(limits, t, Claim(now, {pipeline}, leaseFor));
            var renewed := Next(limits, claimed, Renew(now, id, leaseFor));
            LiveCount(renewed, pipeline, now) == Limit(limits, pipeline) + 1
  {
    hide Next;
    ClaimTakesSlot(limits, t, id, pipeline, now, leaseFor);
    var claimed := Next(limits, t, Claim(now, {pipeline}, leaseFor));
    RenewTakesSlot(limits, claimed, id, pipeline, now, leaseFor);
  }

  /** The other way over budget: a claim by id on a full pipeline, with no heartbeat at all. */
  lemma ClaimByIdOvershoots(limits: Limits, t: Table, id: nat, pipeline: string, now: real, leaseFor: real)
    requires id < |t| && t[id].status == Queued && t[id].pipeline == pipeline && t[id].scheduledAt <= now
    requires leaseFor > 0.0 && AtCapacity(t, limits, pipeline, now) && Within(limits, t, pipeline, now)
    ensures Next(limits, t, Claim(now, {pipeline}, leaseFor)) == t
    ensures LiveCount(Next(limits, t, ClaimItem(now, id, leaseFor)), pipeline, now) == Limit(limits, pipeline) + 1
  {
    CountOfUpdate(t, id, t[id].(status := Processing, lease := Some(now + leaseFor)), pipeline, now);
  }
}
