/**
 * `BoundedTTLMap`: an LRU map with a cap, an optional expiry per entry and an
 * optional predicate by which the owner of a value pins it.
 *
 * The operations are functions on values first; the class at the end performs
 * them in place. The reference is the map that forgets nothing: `Latest`.
 */
module BoundedCache {
  import opened Recency
  import opened Wrappers

  type Key = string

  datatype Entry<+V> = Entry(expires: Option<real>, value: V)

  /** What the `evictable` predicate does with a value; a missing predicate always says yes. */
  datatype Answer = Yes | No | Raises

  datatype Config = Config(maxEntries: nat, defaultTtl: Option<real>)

  /** The ordered dict: `order` is its key order, least recently used first. */
  datatype Cache<+V> = Cache(order: seq<Key>, entries: map<Key, Entry<V>>)

  ghost predicate Wf<V>(m: Cache<V>) {
    && Distinct(m.order)
    && forall k :: k in m.order <==> k in m.entries
  }

  predicate ExpiredAt<V>(e: Entry<V>, now: real) {
    e.expires.Some? && e.expires.value <= now
  }

  /** No TTL, or a TTL of zero, means the entry never expires. */
  function Expiry(c: Config, ttl: Option<real>, now: real): Option<real> {
    var effective := if ttl.None? then c.defaultTtl else ttl;
    if effective.None? || effective.value == 0.0 then None else Some(now + effective.value)
  }

  function Restrict<V>(entries: map<Key, Entry<V>>, order: seq<Key>): map<Key, Entry<V>> {
    map k | k in order && k in entries :: entries[k]
  }

  /** `order` without its first `need` keys that satisfy `drop`. */
  function Kept(order: seq<Key>, drop: Key -> bool, need: nat): seq<Key> {
    if order == [] || need == 0 then order
    else if drop(order[0]) then Kept(order[1..], drop, need - 1)
    else [order[0]] + Kept(order[1..], drop, need)
  }

  /** How many keys must go before the map is below its cap. */
  function Excess(c: Config, size: nat): nat {
    if size < c.maxEntries then 0 else size - c.maxEntries + 1
  }

  function ExpiredKey<V>(m: Cache<V>, now: real): Key -> bool {
    k => k in m.entries && ExpiredAt(m.entries[k], now)
  }

  function EvictableKey<V>(m: Cache<V>, ask: V -> Answer): Key -> bool {
    k => k in m.entries && ask(m.entries[k].value) != No
  }

  /** First pass of making room: expired keys. */
  function Unexpired<V>(c: Config, m: Cache<V>, now: real): seq<Key> {
    Kept(m.order, ExpiredKey(m, now), Excess(c, |m.order|))
  }

  /** Second pass: least recently used keys nobody pins. */
  function Roomy<V>(c: Config, m: Cache<V>, now: real, ask: V -> Answer): seq<Key> {
    Kept(Unexpired(c, m, now), EvictableKey(m, ask), Excess(c, |Unexpired(c, m, now)|))
  }

  function WithRoom<V>(c: Config, m: Cache<V>, now: real, ask: V -> Answer): Cache<V> {
    var order := Roomy(c, m, now, ask);
    Cache(order, Restrict(m.entries, order))
  }

  /** `put`; `later` is the second reading of the clock, inside the room-making. */
  function Store<V>(c: Config, m: Cache<V>, k: Key, v: V, ttl: Option<real>,
                     now: real, later: real, ask: V -> Answer): Cache<V> {
    var roomy := WithRoom(c, m, later, ask);
    Cache(Touch(roomy.order, k), roomy.entries[k := Entry(Expiry(c, ttl, now), v)])
  }

  function Delete<V>(m: Cache<V>, k: Key): Cache<V> {
    Cache(Without(m.order, k), m.entries - {k})
  }

  function Lookup<V>(m: Cache<V>, k: Key, now: real): (Cache<V>, Option<V>) {
    if k !in m.entries then (m, None)
    else if ExpiredAt(m.entries[k], now) then (Delete(m, k), None)
    else (m.(order := Touch(m.order, k)), Some(m.entries[k].value))
  }

  // ----- what one operation does ------------------------------------------------

  lemma {:induction false} KeptFacts(order: seq<Key>, drop: Key -> bool, need: nat)
    ensures var kept := Kept(order, drop, need);
            && |order| - need <= |kept| <= |order|
            && (forall k :: k in kept ==> k in order)
            && (forall k :: k in order && k !in kept ==> drop(k))
            && (|kept| > |order| - need ==> forall k :: k in kept ==> !drop(k))
    decreases |order|
  {
    if order != [] && need != 0 {
      assert order == [order[0]] + order[1..];
      KeptFacts(order[1..], drop, if drop(order[0]) then need - 1 else need);
    }
  }

  lemma {:induction false} KeptKeepsOrder(order: seq<Key>, drop: Key -> bool, need: nat, uses: seq<Key>)
    requires ByLastUse(order, uses)
    ensures ByLastUse(Kept(order, drop, need), uses)
    decreases |order|
  {
    hide LastUse;
    if order != [] && need != 0 {
      var rest := order[1..];
      if drop(order[0]) {
        KeptKeepsOrder(rest, drop, need - 1, uses);
      } else {
        KeptKeepsOrder(rest, drop, need, uses);
        KeptFacts(rest, drop, need);
        var kept := Kept(rest, drop, need);
        forall j | 0 <= j < |kept|
          ensures LastUse(uses, order[0]) < LastUse(uses, kept[j])
        {
          assert kept[j] in rest;
        }
      }
    }
  }

  lemma {:induction false} KeptIsDistinct(order: seq<Key>, drop: Key -> bool, need: nat)
    requires Distinct(order)
    ensures Distinct(Kept(order, drop, need))
    decreases |order|
  {
    if order != [] && need != 0 {
      var need' := if drop(order[0]) then need - 1 else need;
      KeptIsDistinct(order[1..], drop, need');
      KeptFacts(order[1..], drop, need');
      assert order[0] !in order[1..];
      var kept := Kept(order[1..], drop, need');
      assert forall j :: 0 <= j < |kept| ==> kept[j] in kept;
    }
  }

  lemma RestrictIsWf<V>(m: Cache<V>, order: seq<Key>)
    requires Wf(m) && Distinct(order) && forall k :: k in order ==> k in m.order
    ensures Wf(Cache(order, Restrict(m.entries, order)))
  {
  }

  /** Why a key may be missing after room was made: expired, or evicted with nobody pinning it. */
  lemma RoomFacts<V>(c: Config, m: Cache<V>, now: real, ask: V -> Answer)
    requires Wf(m)
    ensures Wf(WithRoom(c, m, now, ask))
    ensures forall k :: k in WithRoom(c, m, now, ask).entries ==>
              k in m.entries && WithRoom(c, m, now, ask).entries[k] == m.entries[k]
    ensures forall k :: k in m.order && k !in Unexpired(c, m, now) ==> ExpiredAt(m.entries[k], now)
    ensures forall k :: k in Unexpired(c, m, now) && k !in Roomy(c, m, now, ask) ==>
              k in m.order && ask(m.entries[k].value) != No
  {
    var first, second := Unexpired(c, m, now), Roomy(c, m, now, ask);
    KeptFacts(m.order, ExpiredKey(m, now), Excess(c, |m.order|));
    KeptFacts(first, EvictableKey(m, ask), Excess(c, |first|));
    KeptIsDistinct(m.order, ExpiredKey(m, now), Excess(c, |m.order|));
    KeptIsDistinct(first, EvictableKey(m, ask), Excess(c, |first|));
    RestrictIsWf(m, second);
  }

  lemma StoreKeepsWf<V>(
    c: Config, m: Cache<V>, k: Key, v: V, ttl: Option<real>, now: real, later: real, ask: V -> Answer)
    requires Wf(m)
    ensures Wf(Store(c, m, k, v, ttl, now, later, ask))
  {
    RoomFacts(c, m, later, ask);
    TouchIsDistinct(WithRoom(c, m, later, ask).order, k);
  }

  lemma DeleteKeepsWf<V>(m: Cache<V>, k: Key)
    requires Wf(m)
    ensures Wf(Delete(m, k))
  {
    WithoutDistinct(m.order, k);
  }

  lemma LookupKeepsWf<V>(m: Cache<V>, k: Key, now: real)
    requires Wf(m)
    ensures Wf(Lookup(m, k, now).0)
  {
    DeleteKeepsWf(m, k);
    TouchIsDistinct(m.order, k);
  }

  /** The keys the predicate pins. */
  ghost function Pinned<V>(m: Cache<V>, ask: V -> Answer): set<Key> {
    set k | k in m.entries && ask(m.entries[k].value) == No
  }

  /** After a `put` the size is at most the cap, or one more than the number of pinned entries. */
  lemma StoreIsBounded<V>(
    c: Config, m: Cache<V>, k: Key, v: V, ttl: Option<real>, now: real, later: real, ask: V -> Answer)
    requires Wf(m) && c.maxEntries >= 1
    ensures var size := |Store(c, m, k, v, ttl, now, later, ask).order|;
            size <= c.maxEntries || size <= 1 + |Pinned(m, ask)|
  {
    RoomFacts(c, m, later, ask);
    var first, kept := Unexpired(c, m, later), Roomy(c, m, later, ask);
    KeptFacts(first, EvictableKey(m, ask), Excess(c, |first|));
    TouchIsDistinct(kept, k);
    if |kept| >= c.maxEntries {
      assert forall x :: x in kept ==> x in Pinned(m, ask);
      DistinctCardinality(kept);
      CardinalityIsMonotone(Elements(kept), Pinned(m, ask));
    }
  }

  /** An unexpired pinned entry survives every `put` of another key. */
  lemma StoreKeepsPinned<V>(
    c: Config, m: Cache<V>, k: Key, v: V, ttl: Option<real>, now: real, later: real, ask: V -> Answer, x: Key)
    requires Wf(m) && x in m.entries && x != k
    requires ask(m.entries[x].value) == No && !ExpiredAt(m.entries[x], later)
    ensures var m' := Store(c, m, k, v, ttl, now, later, ask);
            x in m'.entries && m'.entries[x] == m.entries[x]
  {
    RoomFacts(c, m, later, ask);
  }

  /** A key no `get` finds is gone from the map, expired ones included; a key it finds is the most recently used. */
  lemma GetLeaves<V>(m: Cache<V>, k: Key, now: real)
    requires Wf(m)
    ensures var (m', found) := Lookup(m, k, now);
            && (found == None ==> k !in m'.entries && k !in m'.order)
            && (found.Some? ==> m'.order != [] && m'.order[|m'.order| - 1] == k && m'.entries == m.entries)
            && (forall x :: x in m.entries && x != k ==> x in m'.entries && m'.entries[x] == m.entries[x])
  {
  }

  /** A `put` drops a live entry only when no expired one is left to drop, and nothing while there is room. */
  lemma LiveGoLast<V>(
    c: Config, m: Cache<V>, k: Key, v: V, ttl: Option<real>, now: real, later: real, ask: V -> Answer, x: Key)
    requires Wf(m) && x in m.entries && x != k && x !in Store(c, m, k, v, ttl, now, later, ask).entries
    ensures |m.order| >= c.maxEntries
    ensures var m' := Store(c, m, k, v, ttl, now, later, ask);
            var live := m.entries[x].expires == None || later < m.entries[x].expires.value;
            live ==> forall y :: y in m'.entries && y != k ==>
                       m'.entries[y].expires == None || later < m'.entries[y].expires.value
  {
    RoomFacts(c, m, later, ask);
    var first := Unexpired(c, m, later);
    KeptFacts(m.order, ExpiredKey(m, later), Excess(c, |m.order|));
    KeptFacts(first, EvictableKey(m, ask), Excess(c, |first|));
    assert x in m.order;
  }

  /**
   * What a `put` promises, on plain clock readings: its value is found from then on, for
   * as long as the TTL given with it says, the map's own when none is given; a TTL of
   * zero or none at all never runs out.
   */
  lemma PutThenGet<V>(
    c: Config, m: Cache<V>, k: Key, v: V, ttl: Option<real>, now: real, later: real, ask: V -> Answer, at: real)
    ensures var limit := if ttl.Some? then ttl else c.defaultTtl;
            Lookup(Store(c, m, k, v, ttl, now, later, ask), k, at).1
            == if limit == None || limit == Some(0.0) || at < now + limit.value then Some(v) else None
  {
  }

  // ----- runs ----------------------------------------------------------------------

  datatype Op<!V> =
    | DoGet(key: Key, now: real)
    | DoPut(key: Key, value: V, ttl: Option<real>, now: real, later: real, ask: V -> Answer)
    | DoPop(key: Key)
    | DoClear

  function Step<V>(c: Config, m: Cache<V>, op: Op<V>): Cache<V> {
    match op
    case DoGet(k, now) => Lookup(m, k, now).0
    case DoPut(k, v, ttl, now, later, ask) => Store(c, m, k, v, ttl, now, later, ask)
    case DoPop(k) => Delete(m, k)
    case DoClear => Cache([], map[])
  }

  function After<V>(c: Config, ops: seq<Op<V>>): Cache<V> {
    if |ops| == 0 then Cache([], map[])
    else Step(c, After(c, ops[..|ops| - 1]), ops[|ops| - 1])
  }

  /** The reference: the entry of the latest `put` of `k` with no `pop` or `clear` since. */
  function Latest<V>(c: Config, ops: seq<Op<V>>, k: Key): Option<Entry<V>> {
    if |ops| == 0 then None
    else
      var op, before := ops[|ops| - 1], Latest(c, ops[..|ops| - 1], k);
      match op
      case DoGet(_, _) => before
      case DoPut(x, v, ttl, now, _, _) => if x == k then Some(Entry(Expiry(c, ttl, now), v)) else before
      case DoPop(x) => if x == k then None else before
      case DoClear => None
  }

  /** What the unbounded map would answer at `now`. */
  function UnboundedGet<V>(c: Config, ops: seq<Op<V>>, k: Key, now: real): Option<V> {
    var latest := Latest(c, ops, k);
    if latest.Some? && !ExpiredAt(latest.value, now) then Some(latest.value.value) else None
  }

  /** Time moves forward from one operation to the next, and inside a `put`. */
  function Clock<V>(t0: real, ops: seq<Op<V>>): real {
    if |ops| == 0 then t0
    else
      match ops[|ops| - 1]
      case DoGet(_, now) => now
      case DoPut(_, _, _, _, later, _) => later
      case _ => Clock(t0, ops[..|ops| - 1])
  }

  ghost predicate Clocked<V>(t0: real, ops: seq<Op<V>>) {
    |ops| > 0 ==>
      && Clocked(t0, ops[..|ops| - 1])
      && Clock(t0, ops[..|ops| - 1]) <= Clock(t0, ops)
      && (ops[|ops| - 1].DoPut? ==> Clock(t0, ops[..|ops| - 1]) <= ops[|ops| - 1].now <= ops[|ops| - 1].later)
  }

  /** This operation evicts `k` to make room (as opposed to dropping it as expired). */
  predicate Evicts<V>(c: Config, m: Cache<V>, op: Op<V>, k: Key) {
    && op.DoPut? && op.key != k
    && k in Unexpired(c, m, op.later)
    && k !in Roomy(c, m, op.later, op.ask)
  }

  /** `k` was evicted after its latest `put`. */
  predicate EvictedSincePut<V>(c: Config, ops: seq<Op<V>>, k: Key) {
    if |ops| == 0 then false
    else
      var before, op := ops[..|ops| - 1], ops[|ops| - 1];
      if op.DoPut? && op.key == k then false
      else Evicts(c, After(c, before), op, k) || EvictedSincePut(c, before, k)
  }

  lemma {:induction false} AfterIsWf<V>(c: Config, ops: seq<Op<V>>)
    ensures Wf(After(c, ops))
  {
    if |ops| != 0 {
      var before, op := ops[..|ops| - 1], ops[|ops| - 1];
      AfterIsWf(c, before);
      var m := After(c, before);
      match op
      case DoGet(k, now) => LookupKeepsWf(m, k, now);
      case DoPut(k, v, ttl, now, later, ask) => StoreKeepsWf(c, m, k, v, ttl, now, later, ask);
      case DoPop(k) => DeleteKeepsWf(m, k);
      case DoClear =>
    }
  }

  /** No operation invents or changes the entry of a key it does not put. */
  lemma StepOnly<V>(c: Config, m: Cache<V>, op: Op<V>, k: Key)
    requires Wf(m) && k in Step(c, m, op).entries && !(op.DoPut? && op.key == k)
    ensures !op.DoClear? && !(op.DoPop? && op.key == k)
    ensures k in m.entries && Step(c, m, op).entries[k] == m.entries[k]
  {
    if op.DoPut? {
      RoomFacts(c, m, op.later, op.ask);
    }
  }

  /** Whatever was evicted, expired or moved, the cache is a sub-map of the unbounded map. */
  lemma {:induction false} IsSubMap<V>(c: Config, ops: seq<Op<V>>, k: Key)
    requires k in After(c, ops).entries
    ensures Latest(c, ops, k) == Some(After(c, ops).entries[k])
  {
    var before, op := ops[..|ops| - 1], ops[|ops| - 1];
    AfterIsWf(c, before);
    if !(op.DoPut? && op.key == k) {
      StepOnly(c, After(c, before), op, k);
      IsSubMap(c, before, k);
    }
  }

  /** How an entry can get lost in one step. */
  lemma StepLoses<V>(c: Config, m: Cache<V>, op: Op<V>, k: Key, clock: real)
    requires Wf(m) && k in m.entries && k !in Step(c, m, op).entries
    requires op.DoGet? ==> op.now == clock
    requires op.DoPut? ==> op.later == clock
    ensures ExpiredAt(m.entries[k], clock) || Evicts(c, m, op, k) || op.DoClear? || (op.DoPop? && op.key == k)
  {
    if op.DoPut? {
      RoomFacts(c, m, op.later, op.ask);
    }
  }

  /** On a nondecreasing clock, an entry is missing only if it expired or was evicted. */
  lemma {:induction false} MissingMeansExpiredOrEvicted<V>(c: Config, t0: real, ops: seq<Op<V>>, k: Key)
    requires Clocked(t0, ops)
    requires Latest(c, ops, k).Some? && k !in After(c, ops).entries
    ensures ExpiredAt(Latest(c, ops, k).value, Clock(t0, ops)) || EvictedSincePut(c, ops, k)
  {
    var before, op := ops[..|ops| - 1], ops[|ops| - 1];
    AfterIsWf(c, before);
    var m := After(c, before);
    assert !(op.DoPut? && op.key == k);
    if k in m.entries {
      IsSubMap(c, before, k);
      StepLoses(c, m, op, k, Clock(t0, ops));
    } else {
      MissingMeansExpiredOrEvicted(c, t0, before, k);
    }
  }

  /** An evicted key stays away until it is put again. */
  lemma {:induction false} EvictedStaysAway<V>(c: Config, ops: seq<Op<V>>, k: Key)
    requires EvictedSincePut(c, ops, k)
    ensures k !in After(c, ops).entries
  {
    var before, op := ops[..|ops| - 1], ops[|ops| - 1];
    AfterIsWf(c, before);
    if k in After(c, ops).entries {
      StepOnly(c, After(c, before), op, k);
      if EvictedSincePut(c, before, k) {
        EvictedStaysAway(c, before, k);
      }
    }
  }

  /**
   * Main refinement: after any run on a nondecreasing clock, `get` answers what
   * the unbounded map answers, except that a key evicted since its latest `put`
   * misses. So every hit is the latest value, live; and every wrong miss is an eviction.
   */
  lemma GetIsUnbounded<V>(c: Config, t0: real, ops: seq<Op<V>>, k: Key, now: real)
    requires Clocked(t0, ops) && Clock(t0, ops) <= now
    ensures Lookup(After(c, ops), k, now).1
         == if EvictedSincePut(c, ops, k) then None else UnboundedGet(c, ops, k, now)
  {
    if k in After(c, ops).entries {
      IsSubMap(c, ops, k);
      if EvictedSincePut(c, ops, k) {
        EvictedStaysAway(c, ops, k);
      }
    } else if Latest(c, ops, k).Some? {
      MissingMeansExpiredOrEvicted(c, t0, ops, k);
    }
  }

  // ----- eviction is by recency -------------------------------------------------------

  /** Keys in the order they were used: put, or found by a `get`. */
  function Uses<V>(c: Config, ops: seq<Op<V>>): seq<Key> {
    if |ops| == 0 then []
    else
      var before, op := ops[..|ops| - 1], ops[|ops| - 1];
      var uses := Uses(c, before);
      if op.DoPut? || (op.DoGet? && Lookup(After(c, before), op.key, op.now).1.Some?) then uses + [op.key]
      else uses
  }

  lemma StepOrder<V>(c: Config, m: Cache<V>, op: Op<V>, uses: seq<Key>)
    requires Wf(m) && ByLastUse(m.order, uses)
    ensures var used := op.DoPut? || (op.DoGet? && Lookup(m, op.key, op.now).1.Some?);
            ByLastUse(Step(c, m, op).order, if used then uses + [op.key] else uses)
  {
    match op
    case DoGet(k, now) =>
      UseKeepsOrder(m.order, uses, k);
      ByLastUseWithout(m.order, uses, k);
    case DoPut(k, _, _, _, later, ask) =>
      KeptKeepsOrder(m.order, ExpiredKey(m, later), Excess(c, |m.order|), uses);
      var first := Unexpired(c, m, later);
      KeptKeepsOrder(first, EvictableKey(m, ask), Excess(c, |first|), uses);
      UseKeepsOrder(Roomy(c, m, later, ask), uses, k);
    case DoPop(k) =>
      ByLastUseWithout(m.order, uses, k);
    case DoClear =>
  }

  /** The key order is the order of last use, through every mix of operations. */
  lemma {:induction false} OrderIsByLastUse<V>(c: Config, ops: seq<Op<V>>)
    ensures ByLastUse(After(c, ops).order, Uses(c, ops))
  {
    if |ops| != 0 {
      var before := ops[..|ops| - 1];
      OrderIsByLastUse(c, before);
      AfterIsWf(c, before);
      StepOrder(c, After(c, before), ops[|ops| - 1], Uses(c, before));
    }
  }

  lemma {:induction false} KeptOfNone(order: seq<Key>, drop: Key -> bool, need: nat)
    requires forall k :: k in order ==> !drop(k)
    ensures Kept(order, drop, need) == order
    decreases |order|
  {
    if order != [] && need != 0 {
      KeptOfNone(order[1..], drop, need);
    }
  }

  lemma {:induction false} KeptOfAll(order: seq<Key>, drop: Key -> bool, need: nat)
    requires forall k :: k in order ==> drop(k)
    requires need <= |order|
    ensures Kept(order, drop, need) == order[need..]
    decreases |order|
  {
    if order != [] && need != 0 {
      KeptOfAll(order[1..], drop, need - 1);
    }
  }

  /** Nothing in the map has an expiry date and nothing is pinned. */
  ghost predicate PlainLru<V>(m: Cache<V>, ask: V -> Answer) {
    forall k :: k in m.entries ==> m.entries[k].expires.None? && ask(m.entries[k].value) != No
  }

  /** Without TTLs and pins, making room cuts the least recently used keys off the front. */
  lemma RoomOfPlainLru<V>(c: Config, m: Cache<V>, now: real, ask: V -> Answer)
    requires Wf(m) && PlainLru(m, ask) && c.maxEntries >= 1
    ensures Unexpired(c, m, now) == m.order
    ensures Roomy(c, m, now, ask) == m.order[Excess(c, |m.order|)..]
  {
    KeptOfNone(m.order, ExpiredKey(m, now), Excess(c, |m.order|));
    KeptOfAll(m.order, EvictableKey(m, ask), Excess(c, |m.order|));
  }

  /** Without TTLs and pins a key is evicted only once `maxEntries - 1` distinct other keys were used after it. */
  lemma EvictedMeansOvertaken<V>(c: Config, ops: seq<Op<V>>, op: Op<V>, k: Key)
    requires c.maxEntries >= 1 && op.DoPut? && PlainLru(After(c, ops), op.ask)
    requires Evicts(c, After(c, ops), op, k)
    ensures |UsedSince(Uses(c, ops), k)| >= c.maxEntries - 1
  {
    var m := After(c, ops);
    AfterIsWf(c, ops);
    OrderIsByLastUse(c, ops);
    RoomOfPlainLru(c, m, op.later, op.ask);
    CutOffIsOvertaken(m.order, Uses(c, ops), Excess(c, |m.order|), k);
  }

  /**
   * Room is made before the key is looked up, so overwriting a key of a full map
   * costs another key its entry and leaves the map one below its cap.
   */
  lemma OverwriteWhenFullShrinks<V>(
    c: Config, m: Cache<V>, k: Key, v: V, ttl: Option<real>, now: real, later: real, ask: V -> Answer)
    requires Wf(m) && PlainLru(m, ask) && |m.order| == c.maxEntries
    requires k in m.order && k != m.order[0]
    ensures var m' := Store(c, m, k, v, ttl, now, later, ask);
            && |m'.order| == c.maxEntries - 1
            && m.order[0] !in m'.order
  {
    RoomOfPlainLru(c, m, later, ask);
    assert Excess(c, |m.order|) == 1;
    assert m.order == [m.order[0]] + m.order[1..];
    TouchIsDistinct(m.order[1..], k);
  }

  // ----- in place ----------------------------------------------------------------------

  lemma {:induction false} WithoutMiddle(done: seq<Key>, k: Key, rest: seq<Key>)
    requires Distinct(done + [k] + rest)
    ensures Without(done + [k] + rest, k) == done + rest
  {
    hide Without;
    var whole := done + [k] + rest;
    assert forall i :: 0 <= i < |done| ==> whole[i] == done[i];
    assert whole[|done|] == k;
    assert forall i :: 0 <= i < |rest| ==> whole[|done| + 1 + i] == rest[i];
    assert k !in done && k !in rest;
    WithoutConcat(done + [k], rest, k);
    WithoutConcat(done, [k], k);
    WithoutItself(k);
  }

  lemma WithoutItself(k: Key)
    ensures Without([k], k) == []
  {
  }

  class BoundedTTLMap<V> {
    const config: Config
    var order: seq<Key>
    var entries: map<Key, Entry<V>>
    var hits: nat
    var misses: nat
    var evictions: nat
    var expirations: nat
    var writes: nat

    constructor (maxEntries: int, defaultTtl: Option<real>)
      ensures config == Config(if maxEntries < 1 then 1 else maxEntries, defaultTtl)
      ensures View() == Cache([], map[])
      ensures hits == misses == evictions == expirations == writes == 0
    {
      config := Config(if maxEntries < 1 then 1 else maxEntries, defaultTtl);
      order, entries := [], map[];
      hits, misses, evictions, expirations, writes := 0, 0, 0, 0, 0;
    }

    function View(): Cache<V>
      reads this`order, this`entries
    {
      Cache(order, entries)
    }

    method Remove(k: Key)
      requires Wf(View())
      modifies this`order, this`entries
      ensures View() == Delete(old(View()), k) && Wf(View())
    {
      DeleteKeepsWf(View(), k);
      order, entries := Without(order, k), entries - {k};
    }

    method Get(k: Key, now: real) returns (v: Option<V>)
      requires Wf(View())
      modifies this
      ensures Wf(View()) && (View(), v) == Lookup(old(View()), k, now)
      ensures hits == old(hits) + (if v.Some? then 1 else 0)
      ensures misses == old(misses) + (if v.Some? then 0 else 1)
    {
      if k !in entries {
        misses := misses + 1;
        return None;
      }
      if ExpiredAt(entries[k], now) {
        Remove(k);
        expirations, misses := expirations + 1, misses + 1;
        return None;
      }
      TouchIsDistinct(order, k);
      order, hits := Touch(order, k), hits + 1;
      return Some(entries[k].value);
    }

    /** `_can_evict`: a missing or broken predicate must not keep an entry alive. */
    static method CanEvict(v: V, ask: V -> Answer) returns (yes: bool)
      ensures yes <==> ask(v) != No
    {
      match ask(v)
      case Yes => yes := true;
      case No => yes := false;
      case Raises => yes := true;
    }

    /**
     * A pass over the keys of `start`, dropping those that satisfy `drop`: `done`
     * has been kept, `todo` is still ahead, and the pass will end with `goal`.
     */
    ghost predicate Passing(start: Cache<V>, drop: Key -> bool, goal: seq<Key>, done: seq<Key>, todo: seq<Key>)
      reads this`order, this`entries
    {
      && Wf(View()) && order == done + todo
      && entries == Restrict(start.entries, order)
      && done + Kept(todo, drop, Excess(config, |order|)) == goal
    }

    lemma InPass(start: Cache<V>, drop: Key -> bool, goal: seq<Key>, done: seq<Key>, todo: seq<Key>)
      requires Passing(start, drop, goal, done, todo) && todo != []
      ensures todo[0] in entries && todo[0] in start.entries && entries[todo[0]] == start.entries[todo[0]]
    {
      assert todo[0] in order;
    }

    lemma StartPass(drop: Key -> bool)
      requires Wf(View())
      ensures Passing(View(), drop, Kept(order, drop, Excess(config, |order|)), [], order)
    {
      RestrictAll(View());
      assert [] + order == order;
    }

    /** The pass may stop at the end of the keys, or as soon as there is room. */
    lemma EndPass(start: Cache<V>, drop: Key -> bool, goal: seq<Key>, done: seq<Key>, todo: seq<Key>)
      requires Passing(start, drop, goal, done, todo) && (todo == [] || |order| < config.maxEntries)
      ensures Wf(View()) && order == goal && entries == Restrict(start.entries, order)
    {
    }

    /** Remove the next key of the pass, or leave it where it is. */
    method Visit(ghost start: Cache<V>, ghost drop: Key -> bool, ghost goal: seq<Key>,
                 ghost done: seq<Key>, ghost todo: seq<Key>, k: Key, remove: bool)
      requires Passing(start, drop, goal, done, todo) && todo != [] && todo[0] == k && remove == drop(k)
      requires |order| >= config.maxEntries
      modifies this`order, this`entries
      ensures Passing(start, drop, goal, if remove then done else done + [k], todo[1..])
      ensures |order| == old(|order|) - (if remove then 1 else 0)
    {
      KeptCons(done, todo, drop, Excess(config, |order|));
      if remove {
        assert order == done + [k] + todo[1..];
        WithoutMiddle(done, k, todo[1..]);
        RestrictLess(start, order, k);
        Remove(k);
      }
    }

    /** First loop of `_make_room`. */
    method DropExpired(now: real)
      requires Wf(View())
      modifies this`order, this`entries, this`expirations
      ensures Wf(View())
      ensures order == Kept(old(order), ExpiredKey(old(View()), now), Excess(config, old(|order|)))
      ensures entries == Restrict(old(entries), order)
      ensures expirations + |order| == old(expirations + |order|)
    {
      hide Passing, Kept, Restrict, Wf;
      ghost var start, drop, done := View(), ExpiredKey(View(), now), [];
      var snapshot, i, dropped := order, 0, 0;
      StartPass(drop);
      assert snapshot[0..] == snapshot;
      ghost var goal := Kept(order, drop, Excess(config, |order|));
      while i < |snapshot|
        invariant i <= |snapshot| && Passing(start, drop, goal, done, snapshot[i..])
        invariant dropped + |order| == |snapshot| && expirations == old(expirations)
      {
        if |order| < config.maxEntries {
          break;
        }
        var k := snapshot[i];
        assert snapshot[i..][0] == k && snapshot[i..][1..] == snapshot[i + 1..];
        InPass(start, drop, goal, done, snapshot[i..]);
        var stale := ExpiredAt(entries[k], now);
        Visit(start, drop, goal, done, snapshot[i..], k, stale);
        if stale {
          dropped := dropped + 1;
        } else {
          done := done + [k];
        }
        i := i + 1;
      }
      EndPass(start, drop, goal, done, snapshot[i..]);
      expirations := expirations + dropped;
    }

    /** Second loop of `_make_room`. */
    method EvictLru(ask: V -> Answer)
      requires Wf(View())
      modifies this`order, this`entries, this`evictions
      ensures Wf(View())
      ensures order == Kept(old(order), EvictableKey(old(View()), ask), Excess(config, old(|order|)))
      ensures entries == Restrict(old(entries), order)
      ensures evictions + |order| == old(evictions + |order|)
    {
      hide Passing, Kept, Restrict, Wf;
      ghost var start, drop, done := View(), EvictableKey(View(), ask), [];
      var snapshot, i, dropped := order, 0, 0;
      StartPass(drop);
      assert snapshot[0..] == snapshot;
      ghost var goal := Kept(order, drop, Excess(config, |order|));
      while i < |snapshot|
        invariant i <= |snapshot| && Passing(start, drop, goal, done, snapshot[i..])
        invariant dropped + |order| == |snapshot| && evictions == old(evictions)
      {
        if |order| < config.maxEntries {
          break;
        }
        var k := snapshot[i];
        assert snapshot[i..][0] == k && snapshot[i..][1..] == snapshot[i + 1..];
        InPass(start, drop, goal, done, snapshot[i..]);
        var free := CanEvict(entries[k].value, ask);
        Visit(start, drop, goal, done, snapshot[i..], k, free);
        if free {
          dropped := dropped + 1;
        } else {
          done := done + [k];
        }
        i := i + 1;
      }
      EndPass(start, drop, goal, done, snapshot[i..]);
      evictions := evictions + dropped;
    }

    method MakeRoom(now: real, ask: V -> Answer)
      requires Wf(View())
      modifies this`order, this`entries, this`expirations, this`evictions
      ensures Wf(View()) && View() == WithRoom(config, old(View()), now, ask)
      ensures expirations + evictions + |order| == old(expirations + evictions + |order|)
    {
      ghost var start := View();
      if |order| < config.maxEntries {
        RestrictAll(start);
        return;
      }
      DropExpired(now);
      ghost var first := order;
      EvictLru(ask);
      SecondPass(config, start, now, ask);
    }

    method Put(k: Key, v: V, ttl: Option<real>, now: real, later: real, ask: V -> Answer)
      requires Wf(View())
      modifies this
      ensures Wf(View()) && View() == Store(config, old(View()), k, v, ttl, now, later, ask)
      ensures writes == old(writes) + 1
    {
      StoreKeepsWf(config, View(), k, v, ttl, now, later, ask);
      var expires := Expiry(config, ttl, now);
      MakeRoom(later, ask);
      order, entries := Touch(order, k), entries[k := Entry(expires, v)];
      writes := writes + 1;
    }

    method Pop(k: Key) returns (v: Option<V>)
      requires Wf(View())
      modifies this`order, this`entries
      ensures Wf(View()) && View() == Delete(old(View()), k)
      ensures v == if old(k in entries) then Some(old(entries)[k].value) else None
    {
      v := if k in entries then Some(entries[k].value) else None;
      Remove(k);
    }

    method Clear()
      modifies this`order, this`entries
      ensures View() == Cache([], map[]) && Wf(View())
    {
      order, entries := [], map[];
    }
  }

  lemma KeptCons(done: seq<Key>, todo: seq<Key>, drop: Key -> bool, need: nat)
    requires todo != [] && need > 0
    ensures todo == [todo[0]] + todo[1..] && done + todo == (done + [todo[0]]) + todo[1..]
    ensures done + Kept(todo, drop, need)
         == if drop(todo[0]) then done + Kept(todo[1..], drop, need - 1)
            else (done + [todo[0]]) + Kept(todo[1..], drop, need)
  {
  }

  lemma RestrictAll<V>(m: Cache<V>)
    requires Wf(m)
    ensures Restrict(m.entries, m.order) == m.entries
  {
  }

  lemma RestrictLess<V>(m: Cache<V>, order: seq<Key>, k: Key)
    ensures Restrict(m.entries, Without(order, k)) == Restrict(m.entries, order) - {k}
  {
  }

  /** The second pass may look at the map the first pass left: nothing it asks about has changed. */
  lemma SecondPass<V>(c: Config, m: Cache<V>, now: real, ask: V -> Answer)
    requires Wf(m)
    ensures var first := Unexpired(c, m, now);
            var left := Cache(first, Restrict(m.entries, first));
            && Kept(first, EvictableKey(left, ask), Excess(c, |first|)) == Roomy(c, m, now, ask)
            && Restrict(left.entries, Roomy(c, m, now, ask)) == Restrict(m.entries, Roomy(c, m, now, ask))
  {
    var first := Unexpired(c, m, now);
    var left := Cache(first, Restrict(m.entries, first));
    KeptFacts(m.order, ExpiredKey(m, now), Excess(c, |m.order|));
    KeptAgrees(first, EvictableKey(left, ask), EvictableKey(m, ask), Excess(c, |first|));
    KeptFacts(first, EvictableKey(m, ask), Excess(c, |first|));
  }

  lemma {:induction false} KeptAgrees(order: seq<Key>, drop: Key -> bool, drop': Key -> bool, need: nat)
    requires forall k :: k in order ==> drop(k) == drop'(k)
    ensures Kept(order, drop, need) == Kept(order, drop', need)
    decreases |order|
  {
    if order != [] && need != 0 {
      KeptAgrees(order[1..], drop, drop', if drop(order[0]) then need - 1 else need);
    }
  }
}
