/**
 * Subscription expiry: one resolver applied lazily by every entitlement check
 * and in batch by the nightly sweep.
 */
module Subscription {
  import opened Wrappers

  /** A moment in naive UTC, in seconds. */
  type Time = int

  datatype Row = Row(
    status: string, plan: string, trialEnd: Option<Time>, periodEnd: Option<Time>, graceUntil: Option<Time>)

  /**
   * `str(...).strip().lower()`. All that matters here is that the value the code
   * itself writes is already normal.
   */
  type Normal = f: string -> string | f("expired") == "expired" witness (s: string) => s

  const PLANS: set<string> := {"free", "pro", "pro_plus"}

  const LAPSED: set<string> := {"canceled", "cancelled", "expired"}

  const UNPAID: set<string> := {"incomplete", "incomplete_expired", "unpaid", "paused"}

  const KNOWN: set<string> := {"active", "trialing", "past_due"} + LAPSED + UNPAID

  predicate Until(moment: Option<Time>, now: Time) {
    moment.Some? && moment.value > now
  }

  predicate Elapsed(moment: Option<Time>, now: Time) {
    moment.Some? && moment.value <= now
  }

  function Expired(r: Row): Row {
    r.(status := "expired")
  }

  /** `_subscription_has_expired` as a function of the row. */
  function Resolve(norm: Normal, r: Row, now: Time): Row {
    var status := norm(r.status);
    if status == "past_due" then
      if Until(r.graceUntil, now) then r else Expired(r)
    else if status in LAPSED then
      if Until(r.graceUntil, now) || status == "expired" then r else Expired(r)
    else if status != "active" && status != "trialing" then r
    else if Elapsed(r.trialEnd, now) || Elapsed(r.periodEnd, now) then Expired(r).(graceUntil := None)
    else r
  }

  /** The plan a resolved row entitles to; `check` is the second reading of the clock. */
  function PlanOf(norm: Normal, r: Row, check: Time): string {
    var status := norm(r.status);
    if status !in KNOWN || status in UNPAID then "free"
    else if (status in LAPSED || status == "past_due") && !Until(r.graceUntil, check) then "free"
    else
      var plan := norm(if r.plan == "" then "free" else r.plan);
      if plan in PLANS then plan else "free"
  }

  /** `get_user_plan` for a user with a row: resolve at `now`, judge grace at `check`. */
  function UserPlan(norm: Normal, r: Row, now: Time, check: Time): string {
    PlanOf(norm, Resolve(norm, r, now), check)
  }

  // ----- the resolver is insensitive to when it runs ---------------------------------

  /** Resolving early and again later leaves the row that resolving later alone leaves. */
  lemma ResolveAbsorbs(norm: Normal, r: Row, early: Time, late: Time)
    requires early <= late
    ensures Resolve(norm, Resolve(norm, r, early), late) == Resolve(norm, r, late)
  {
  }

  /**
   * Exactly which rows a resolution expires, read off status and dates: a row in trial
   * or paid use once its trial or period has ended, a row in payment grace or canceled
   * once no grace is left. A failed payment may spell "expired" its own way and is
   * rewritten; a row that is expired already, and every other row, is left alone.
   */
  lemma ExpiresIff(norm: Normal, r: Row, now: Time)
    ensures var status, r' := norm(r.status), Resolve(norm, r, now);
            var graceOver := r.graceUntil == None || r.graceUntil.value <= now;
            var ended := (r.trialEnd.Some? && r.trialEnd.value <= now)
                         || (r.periodEnd.Some? && r.periodEnd.value <= now);
            && (status in {"active", "trialing"} ==>
                  r' == if ended then r.(status := "expired", graceUntil := None) else r)
            && (status in {"past_due", "canceled", "cancelled"} ==>
                  r' == if graceOver then r.(status := "expired") else r)
            && (status !in {"active", "trialing", "past_due", "canceled", "cancelled"} ==> r' == r)
  {
  }

  /**
   * Exactly when a user is entitled to a plan, read off the row as stored: the plan is
   * known, and the row is in trial or paid use with neither end reached, or in grace
   * at the second reading of the clock. The plan is then that one, and "free" otherwise.
   */
  lemma EntitledIff(norm: Normal, r: Row, now: Time, check: Time)
    ensures var status, plan := norm(r.status), norm(if r.plan == "" then "free" else r.plan);
            var running := (r.trialEnd.Some? ==> now < r.trialEnd.value)
                           && (r.periodEnd.Some? ==> now < r.periodEnd.value);
            var inGrace := r.graceUntil.Some? && check < r.graceUntil.value;
            var entitled := plan in {"free", "pro", "pro_plus"}
                            && ((status in {"active", "trialing"} && running)
                                || (status in {"past_due", "canceled", "cancelled", "expired"} && inGrace));
            UserPlan(norm, r, now, check) == if entitled then plan else "free"
  {
  }

  /** Any number of sweeps and lazy reads at the given times. */
  function AfterSchedule(norm: Normal, r: Row, times: seq<Time>): Row {
    if times == [] then r
    else Resolve(norm, AfterSchedule(norm, r, times[..|times| - 1]), times[|times| - 1])
  }

  ghost predicate AllBy(times: seq<Time>, now: Time) {
    forall i :: 0 <= i < |times| ==> times[i] <= now
  }

  /**
   * Whatever sweeps and reads ran before, in whatever order, a later resolution
   * leaves the same row; so every later entitlement check gives the same plan.
   */
  lemma {:induction false} ScheduleIsUnobservable(norm: Normal, r: Row, times: seq<Time>, now: Time, check: Time)
    requires AllBy(times, now)
    ensures Resolve(norm, AfterSchedule(norm, r, times), now) == Resolve(norm, r, now)
    ensures UserPlan(norm, AfterSchedule(norm, r, times), now, check) == UserPlan(norm, r, now, check)
  {
    if times != [] {
      var before, last := times[..|times| - 1], times[|times| - 1];
      ScheduleIsUnobservable(norm, r, before, now, check);
      ResolveAbsorbs(norm, AfterSchedule(norm, r, before), last, now);
    }
  }

  /** Without a billing write, a plan that has become free never becomes paid again. */
  lemma FreeIsAbsorbing(norm: Normal, r: Row, now: Time, check: Time, times: seq<Time>, now': Time, check': Time)
    requires now <= check <= now' <= check' && AllBy(times, now')
    requires UserPlan(norm, r, now, check) == "free"
    ensures UserPlan(norm, AfterSchedule(norm, Resolve(norm, r, now), times), now', check') == "free"
  {
    ScheduleIsUnobservable(norm, Resolve(norm, r, now), times, now', check');
    ResolveAbsorbs(norm, r, now, now');
    FreeStaysFree(norm, r, now, check, now', check');
  }

  lemma FreeStaysFree(norm: Normal, r: Row, now: Time, check: Time, now': Time, check': Time)
    requires now <= check <= now' <= check'
    requires UserPlan(norm, r, now, check) == "free"
    ensures UserPlan(norm, r, now', check') == "free"
  {
  }

  // ----- in place -------------------------------------------------------------------

  class SubscriptionRow {
    var status: string
    var plan: string
    var trialEnd: Option<Time>
    var periodEnd: Option<Time>
    var graceUntil: Option<Time>

    constructor (r: Row)
      ensures View() == r
    {
      status, plan, trialEnd, periodEnd, graceUntil := r.status, r.plan, r.trialEnd, r.periodEnd, r.graceUntil;
    }

    function View(): Row
      reads this
    {
      Row(status, plan, trialEnd, periodEnd, graceUntil)
    }

    method HasExpired(norm: Normal, now: Time) returns (changed: bool)
      modifies this
      ensures View() == Resolve(norm, old(View()), now)
      ensures changed <==> View() != old(View())
      ensures changed <==> status != old(status)
    {
      var s := norm(status);
      if s == "past_due" {
        if graceUntil.Some? && graceUntil.value > now {
          return false;
        }
        if status != "expired" {
          status := "expired";
          return true;
        }
        return false;
      }
      if s in LAPSED {
        if graceUntil.Some? && graceUntil.value > now {
          return false;
        }
        if s != "expired" {
          status := "expired";
          return true;
        }
        return false;
      }
      if s != "active" && s != "trialing" {
        return false;
      }
      if trialEnd.Some? && trialEnd.value <= now {
        status, graceUntil := "expired", None;
        return true;
      }
      if periodEnd.Some? && periodEnd.value <= now {
        status, graceUntil := "expired", None;
        return true;
      }
      return false;
    }
  }

  /** Number of rows of the table a sweep at `now` changes. */
  function ChangedCount(norm: Normal, table: seq<Row>, now: Time): nat {
    if table == [] then 0
    else
      var last := table[|table| - 1];
      ChangedCount(norm, table[..|table| - 1], now) + (if Resolve(norm, last, now) != last then 1 else 0)
  }

  function Views(rows: seq<SubscriptionRow>): (views: seq<Row>)
    reads rows
    ensures |views| == |rows| && forall i :: 0 <= i < |rows| ==> views[i] == rows[i].View()
  {
    if rows == [] then [] else Views(rows[..|rows| - 1]) + [rows[|rows| - 1].View()]
  }

  /**
   * The sweep: every row is resolved, the result counts the rows that changed,
   * and the one commit at the end happens exactly when there is a change to keep.
   */
  method ExpireSubscriptions(norm: Normal, rows: seq<SubscriptionRow>, now: Time)
    returns (changed: nat, committed: bool)
    requires forall i, j :: 0 <= i < j < |rows| ==> rows[i] != rows[j]
    modifies rows
    ensures forall i :: 0 <= i < |rows| ==> rows[i].View() == Resolve(norm, old(rows[i].View()), now)
    ensures changed == ChangedCount(norm, old(Views(rows)), now)
    ensures committed <==> changed != 0
  {
    hide Resolve, ChangedCount;
    NoneChanged(norm, now);
    ghost var before := Views(rows);
    changed := 0;
    var i := 0;
    while i < |rows|
      invariant i <= |rows|
      invariant forall j :: 0 <= j < i ==> rows[j].View() == Resolve(norm, before[j], now)
      invariant forall j :: i <= j < |rows| ==> rows[j].View() == before[j]
      invariant changed == ChangedCount(norm, before[..i], now)
    {
      CountOneMore(norm, before, i, now);
      var was := rows[i].status;
      var _ := rows[i].HasExpired(norm, now);
      if rows[i].status != was {
        changed := changed + 1;
      }
      i := i + 1;
    }
    assert before[..i] == before;
    committed := changed != 0;
  }

  lemma NoneChanged(norm: Normal, now: Time)
    ensures ChangedCount(norm, [], now) == 0
  {
  }

  lemma CountOneMore(norm: Normal, table: seq<Row>, i: nat, now: Time)
    requires i < |table|
    ensures ChangedCount(norm, table[..i + 1], now)
         == ChangedCount(norm, table[..i], now) + (if Resolve(norm, table[i], now) != table[i] then 1 else 0)
    ensures Resolve(norm, table[i], now) != table[i] <==> Resolve(norm, table[i], now).status != table[i].status
  {
    assert table[..i + 1][..i] == table[..i];
  }

  ghost function ChangedRows(norm: Normal, table: seq<Row>, now: Time): set<nat> {
    set i: nat | i < |table| && Resolve(norm, table[i], now) != table[i]
  }

  /** The count of the sweep is the number of rows it changed. */
  lemma {:induction false} CountsChangedRows(norm: Normal, table: seq<Row>, now: Time)
    ensures ChangedCount(norm, table, now) == |ChangedRows(norm, table, now)|
  {
    hide Resolve;
    if table != [] {
      var before, last := table[..|table| - 1], |table| - 1;
      CountsChangedRows(norm, before, now);
      if Resolve(norm, table[last], now) != table[last] {
        assert ChangedRows(norm, table, now) == ChangedRows(norm, before, now) + {last};
      } else {
        assert ChangedRows(norm, table, now) == ChangedRows(norm, before, now);
      }
    }
  }

  /** The single commit is skipped only when no row was touched. */
  lemma {:induction false} CountIsPositiveIff(norm: Normal, table: seq<Row>, now: Time)
    ensures ChangedCount(norm, table, now) > 0
       <==> exists i :: 0 <= i < |table| && Resolve(norm, table[i], now) != table[i]
  {
    if table != [] {
      var last := |table| - 1;
      CountIsPositiveIff(norm, table[..last], now);
      if i :| 0 <= i < |table| && Resolve(norm, table[i], now) != table[i] {
        if i < last {
          assert table[..last][i] == table[i];
        }
      }
    }
  }

  function Swept(norm: Normal, table: seq<Row>, now: Time): seq<Row> {
    seq(|table|, i requires 0 <= i < |table| => Resolve(norm, table[i], now))
  }

  /** A second sweep at the same moment finds nothing to change. */
  lemma SweepIsIdempotent(norm: Normal, table: seq<Row>, now: Time)
    ensures ChangedCount(norm, Swept(norm, table, now), now) == 0
  {
    CountIsPositiveIff(norm, Swept(norm, table, now), now);
    forall i | 0 <= i < |table|
      ensures Resolve(norm, Swept(norm, table, now)[i], now) == Swept(norm, table, now)[i]
    {
      ResolveAbsorbs(norm, table[i], now, now);
    }
  }
}
