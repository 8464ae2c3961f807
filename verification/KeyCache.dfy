/**
 * `fernet_for`: the key derived for a scope is cached in a bounded TTL map, while
 * the master key it was derived from may be rotated underneath.
 */
module KeyCache {
  import opened BoundedCache
  import opened Recency
  import opened KeyDerivation
  import opened Wrappers

  type Scope = string
  type Master = string
  type Bytes = seq<byte>

  /** Key derivation is opaque here; `DerivedBy` below instantiates it with HKDF. */
  type Derivation = (Master, Scope) -> Bytes

  datatype State = State(cache: Cache<Bytes>, master: Master)

  /** A use reads the clock in `get`, and again twice in `put` when it has to derive. */
  datatype Event =
    | Use(scope: Scope, now: real, putNow: real, later: real)
    | Rotate(master: Master, at: real)
    | ClearKeys

  function NeverPinned(): Bytes -> Answer {
    _ => Yes
  }

  function Fernet(c: Config, d: Derivation, s: State, scope: Scope, now: real, putNow: real, later: real)
    : (State, Bytes)
  {
    var (m, found) := Lookup(s.cache, scope, now);
    match found
    case Some(key) => (s.(cache := m), key)
    case None =>
      var key := d(s.master, scope);
      (s.(cache := Store(c, m, scope, key, None, putNow, later, NeverPinned())), key)
  }

  function Step(c: Config, d: Derivation, s: State, e: Event): State {
    match e
    case Use(scope, now, putNow, later) => Fernet(c, d, s, scope, now, putNow, later).0
    case Rotate(master, _) => s.(master := master)
    case ClearKeys => s.(cache := Cache([], map[]))
  }

  function After(c: Config, d: Derivation, master: Master, events: seq<Event>): State {
    if events == [] then State(Cache([], map[]), master)
    else Step(c, d, After(c, d, master, events[..|events| - 1]), events[|events| - 1])
  }

  /** The master key in force after a run. */
  function MasterOf(master: Master, events: seq<Event>): Master {
    if events == [] then master
    else if events[|events| - 1].Rotate? then events[|events| - 1].master
    else MasterOf(master, events[..|events| - 1])
  }

  function Moment(e: Event, before: real): real {
    match e
    case Use(_, _, _, later) => later
    case Rotate(_, at) => at
    case ClearKeys => before
  }

  function Clock(t0: real, events: seq<Event>): real {
    if events == [] then t0
    else Moment(events[|events| - 1], Clock(t0, events[..|events| - 1]))
  }

  ghost predicate Clocked(t0: real, events: seq<Event>) {
    events != [] ==>
      var before, e := events[..|events| - 1], events[|events| - 1];
      && Clocked(t0, before)
      && match e
         case Use(_, now, putNow, later) => Clock(t0, before) <= now <= putNow <= later
         case Rotate(_, at) => Clock(t0, before) <= at
         case ClearKeys => true
  }

  /** Event `i` is the use that derived `key` for `scope`, with the master key of its time. */
  ghost predicate DerivedAt(c: Config, d: Derivation, master: Master, events: seq<Event>, i: nat,
                            scope: Scope, e: Entry<Bytes>) {
    && i < |events|
    && events[i].Use? && events[i].scope == scope
    && e.value == d(MasterOf(master, events[..i]), scope)
    && e.expires == Expiry(c, None, events[i].putNow)
    && forall j :: i < j < |events| ==> !events[j].ClearKeys?
  }

  lemma {:induction false} MasterIsInForce(c: Config, d: Derivation, master: Master, events: seq<Event>)
    ensures After(c, d, master, events).master == MasterOf(master, events)
  {
    if events != [] {
      MasterIsInForce(c, d, master, events[..|events| - 1]);
    }
  }

  lemma FernetFacts(c: Config, d: Derivation, s: State, scope: Scope, now: real, putNow: real, later: real)
    requires Wf(s.cache)
    ensures var (s', key) := Fernet(c, d, s, scope, now, putNow, later);
            && Wf(s'.cache)
            && (forall x :: x in s'.cache.entries && x != scope ==>
                  x in s.cache.entries && s'.cache.entries[x] == s.cache.entries[x])
            && (scope in s.cache.entries && !ExpiredAt(s.cache.entries[scope], now) ==>
                  s'.cache.entries == s.cache.entries && key == s.cache.entries[scope].value)
            && (scope !in s.cache.entries || ExpiredAt(s.cache.entries[scope], now) ==>
                  scope in s'.cache.entries
                  && s'.cache.entries[scope] == Entry(Expiry(c, None, putNow), key)
                  && key == d(s.master, scope))
  {
    LookupKeepsWf(s.cache, scope, now);
    var m := Lookup(s.cache, scope, now).0;
    StoreKeepsWf(c, m, scope, d(s.master, scope), None, putNow, later, NeverPinned());
    RoomFacts(c, m, later, NeverPinned());
  }

  lemma DerivedEarlier(
    c: Config, d: Derivation, master: Master, events: seq<Event>, i: nat, scope: Scope, e: Entry<Bytes>)
    requires events != [] && !events[|events| - 1].ClearKeys?
    requires DerivedAt(c, d, master, events[..|events| - 1], i, scope, e)
    ensures DerivedAt(c, d, master, events, i, scope, e)
  {
    assert events[..|events| - 1][..i] == events[..i];
  }

  /** What a use leaves in the cache for a scope: what was there, or what it just derived. */
  lemma UseProvenance(c: Config, d: Derivation, s: State, u: Event, scope: Scope)
    requires Wf(s.cache) && u.Use? && scope in Step(c, d, s, u).cache.entries
    ensures var e := Step(c, d, s, u).cache.entries[scope];
            || (scope in s.cache.entries && e == s.cache.entries[scope])
            || (u.scope == scope && e == Entry(Expiry(c, None, u.putNow), d(s.master, scope)))
  {
    FernetFacts(c, d, s, u.scope, u.now, u.putNow, u.later);
  }

  lemma {:induction false} CacheIsWf(c: Config, d: Derivation, master: Master, events: seq<Event>)
    ensures Wf(After(c, d, master, events).cache)
  {
    if events != [] {
      var before, e := events[..|events| - 1], events[|events| - 1];
      CacheIsWf(c, d, master, before);
      if e.Use? {
        FernetFacts(c, d, After(c, d, master, before), e.scope, e.now, e.putNow, e.later);
      }
    }
  }

  /** Every cached key was derived by some earlier use, after the last clearing of the cache. */
  lemma {:induction false} Provenance(c: Config, d: Derivation, master: Master, events: seq<Event>, scope: Scope)
    returns (i: nat)
    requires scope in After(c, d, master, events).cache.entries
    ensures DerivedAt(c, d, master, events, i, scope, After(c, d, master, events).cache.entries[scope])
  {
    var before, e := events[..|events| - 1], events[|events| - 1];
    var s := After(c, d, master, before);
    CacheIsWf(c, d, master, before);
    MasterIsInForce(c, d, master, before);
    if e.Use? {
      UseProvenance(c, d, s, e, scope);
    }
    var entry := After(c, d, master, events).cache.entries[scope];
    if scope in s.cache.entries && entry == s.cache.entries[scope] {
      i := Provenance(c, d, master, before, scope);
      DerivedEarlier(c, d, master, events, i, scope, entry);
    } else {
      i := |before|;
    }
  }

  /** However many scopes are used, the cache never holds more than its cap. */
  lemma {:induction false} CacheIsBounded(c: Config, d: Derivation, master: Master, events: seq<Event>)
    requires c.maxEntries >= 1
    ensures |After(c, d, master, events).cache.order| <= c.maxEntries
  {
    if events != [] {
      var before, e := events[..|events| - 1], events[|events| - 1];
      CacheIsBounded(c, d, master, before);
      CacheIsWf(c, d, master, before);
      if e.Use? {
        UseIsBounded(c, d, After(c, d, master, before), e);
      }
    }
  }

  lemma UseIsBounded(c: Config, d: Derivation, s: State, u: Event)
    requires Wf(s.cache) && c.maxEntries >= 1 && |s.cache.order| <= c.maxEntries && u.Use?
    ensures |Step(c, d, s, u).cache.order| <= c.maxEntries
  {
    var m := Lookup(s.cache, u.scope, u.now).0;
    LookupKeepsWf(s.cache, u.scope, u.now);
    StoreIsBounded(c, m, u.scope, d(s.master, u.scope), None, u.putNow, u.later, NeverPinned());
    assert Pinned(m, NeverPinned()) == {};
    LookupNeverGrows(s.cache, u.scope, u.now);
  }

  lemma LookupNeverGrows(m: Cache<Bytes>, k: Key, now: real)
    requires Wf(m)
    ensures |Lookup(m, k, now).0.order| <= |m.order|
  {
    WithoutDistinct(m.order, k);
    TouchIsDistinct(m.order, k);
  }

  // ----- staleness ---------------------------------------------------------------

  /**
   * Whatever happened before, the key a use returns was derived with the master
   * key in force at event `i`, and between `i` and now there was no clearing and
   * the TTL has not run out.
   */
  lemma KeyComesFrom(c: Config, d: Derivation, master: Master, events: seq<Event>,
                     scope: Scope, now: real, putNow: real, later: real) returns (i: nat)
    ensures i <= |events|
    ensures Fernet(c, d, After(c, d, master, events), scope, now, putNow, later).1
         == d(MasterOf(master, events[..i]), scope)
    ensures i < |events| ==>
              && events[i].Use?
              && (forall j :: i < j < |events| ==> !events[j].ClearKeys?)
              && var expiry := Expiry(c, None, events[i].putNow); (expiry.Some? ==> now < expiry.value)
  {
    var s := After(c, d, master, events);
    CacheIsWf(c, d, master, events);
    MasterIsInForce(c, d, master, events);
    FernetFacts(c, d, s, scope, now, putNow, later);
    if scope in s.cache.entries && !ExpiredAt(s.cache.entries[scope], now) {
      i := Provenance(c, d, master, events, scope);
    } else {
      i := |events|;
      assert events[..i] == events;
    }
  }

  lemma {:induction false} MasterUnchanged(master: Master, events: seq<Event>, i: nat)
    requires i <= |events|
    requires forall j :: i <= j < |events| ==> !events[j].Rotate?
    ensures MasterOf(master, events[..i]) == MasterOf(master, events)
  {
    if i < |events| {
      assert events[..|events| - 1][..i] == events[..i];
      MasterUnchanged(master, events[..|events| - 1], i);
    } else {
      assert events[..i] == events;
    }
  }

  /** While the master key is never rotated the cache is transparent. */
  lemma TransparentWithoutRotation(c: Config, d: Derivation, master: Master, events: seq<Event>,
                                   scope: Scope, now: real, putNow: real, later: real)
    requires forall j :: 0 <= j < |events| ==> !events[j].Rotate?
    ensures Fernet(c, d, After(c, d, master, events), scope, now, putNow, later).1 == d(master, scope)
  {
    var i := KeyComesFrom(c, d, master, events, scope, now, putNow, later);
    assert forall j :: 0 <= j < i ==> events[..i][j] == events[j];
    MasterUnchanged(master, events[..i], 0);
    assert events[..i][..0] == [];
  }

  /** All rotations happened at or before `r`. */
  ghost predicate RotatedBy(events: seq<Event>, r: real) {
    forall j :: 0 <= j < |events| && events[j].Rotate? ==> events[j].at <= r
  }

  lemma {:induction false} ClockIsMonotone(t0: real, events: seq<Event>, i: nat, j: nat)
    requires Clocked(t0, events) && i < j < |events|
    requires events[i].Use? && events[j].Rotate?
    ensures events[i].putNow <= events[j].at
  {
    var before, e := events[..|events| - 1], events[|events| - 1];
    if j < |before| {
      ClockIsMonotone(t0, before, i, j);
    } else {
      UseBeforeClock(t0, before, i);
    }
  }

  lemma {:induction false} UseBeforeClock(t0: real, events: seq<Event>, i: nat)
    requires Clocked(t0, events) && i < |events| && events[i].Use?
    ensures events[i].putNow <= Clock(t0, events)
  {
    if i < |events| - 1 {
      UseBeforeClock(t0, events[..|events| - 1], i);
    }
  }

  /**
   * With a TTL other than zero, every use at least a TTL after the last rotation
   * gets a key derived from the master key now in force.
   */
  lemma FreshAfterTtl(c: Config, d: Derivation, t0: real, master: Master, events: seq<Event>, r: real,
                      scope: Scope, now: real, putNow: real, later: real)
    requires Clocked(t0, events) && RotatedBy(events, r)
    requires c.defaultTtl.Some? && c.defaultTtl.value != 0.0 && now >= r + c.defaultTtl.value
    ensures Fernet(c, d, After(c, d, master, events), scope, now, putNow, later).1
         == d(MasterOf(master, events), scope)
  {
    var i := KeyComesFrom(c, d, master, events, scope, now, putNow, later);
    if i < |events| {
      forall j | i <= j < |events|
        ensures !events[j].Rotate?
      {
        if i < j && events[j].Rotate? {
          ClockIsMonotone(t0, events, i, j);
        }
      }
    }
    MasterUnchanged(master, events, i);
  }

  /** Clearing the cache after the rotation has the same effect at once, whatever the TTL. */
  lemma FreshAfterClear(c: Config, d: Derivation, master: Master, events: seq<Event>, cleared: nat,
                        scope: Scope, now: real, putNow: real, later: real)
    requires cleared < |events| && events[cleared].ClearKeys?
    requires forall j :: cleared < j < |events| ==> !events[j].Rotate?
    ensures Fernet(c, d, After(c, d, master, events), scope, now, putNow, later).1
         == d(MasterOf(master, events), scope)
  {
    var i := KeyComesFrom(c, d, master, events, scope, now, putNow, later);
    assert i < |events| ==> i > cleared;
    MasterUnchanged(master, events, i);
  }

  /** A TTL of zero means "never expires": the old key is served for ever, however late the use. */
  lemma ZeroTtlIsStaleForEver(c: Config, d: Derivation, old_: Master, new_: Master, scope: Scope, t: real, now: real)
    requires c.maxEntries >= 1 && (c.defaultTtl.None? || c.defaultTtl.value == 0.0)
    ensures Fernet(c, d, After(c, d, old_, [Use(scope, t, t, t), Rotate(new_, t)]), scope, now, now, now).1
         == d(old_, scope)
  {
    var uses := [Use(scope, t, t, t)];
    assert uses[..|uses| - 1] == [];
    assert [Use(scope, t, t, t), Rotate(new_, t)][..1] == uses;
    var s0 := State(Cache([], map[]), old_);
    FernetFacts(c, d, s0, scope, t, t, t);
    assert After(c, d, old_, []) == s0;
    var s1 := After(c, d, old_, uses);
    assert s1 == Step(c, d, s0, uses[0]);
    FernetFacts(c, d, s1.(master := new_), scope, now, now, now);
  }

  // ----- in place -------------------------------------------------------------------

  /** The derivation the code uses: 32 bytes of HKDF output for `jobhunter:<scope>:v1`. */
  function DerivedBy(hmac: Hmac, salt: seq<byte>, encode: string -> seq<byte>): Derivation {
    (master: Master, scope: Scope) =>
      Okm(hmac, Extract(hmac, salt, encode(master)), encode("jobhunter:" + scope + ":v1"), 32)
  }

  /** Thirty-two bytes are the first block: the key hangs on master, scope and purpose through two rounds of HMAC. */
  lemma KeyIsOneBlock(hmac: Hmac, salt: seq<byte>, encode: string -> seq<byte>, master: Master, scope: Scope)
    ensures DerivedBy(hmac, salt, encode)(master, scope)
            == hmac(hmac(salt, encode(master)), encode("jobhunter:" + scope + ":v1") + [1])
  {
    var prk, info := Extract(hmac, salt, encode(master)), encode("jobhunter:" + scope + ":v1");
    assert BlockCount(32) == 1;
    assert Blocks(hmac, prk, info, 1) == Blocks(hmac, prk, info, 0) + T(hmac, prk, info, 1);
    assert T(hmac, prk, info, 0) + info == info;
    assert 1 as byte == 1;
  }

  /** No two scopes share what their keys are derived from. */
  lemma PurposeNamesScope(a: Scope, b: Scope)
    ensures "jobhunter:" + a + ":v1" == "jobhunter:" + b + ":v1" <==> a == b
  {
    if "jobhunter:" + a + ":v1" == "jobhunter:" + b + ":v1" {
      assert ("jobhunter:" + a + ":v1")[10..10 + |a|] == a;
      assert ("jobhunter:" + b + ":v1")[10..10 + |b|] == b;
      assert |a| == |b|;
    }
  }

  class KeyRing {
    const hmac: Hmac
    const salt: seq<byte>
    const encode: string -> seq<byte>
    const keys: BoundedTTLMap<Bytes>
    var master: Master

    constructor (hmac: Hmac, salt: seq<byte>, encode: string -> seq<byte>,
                 maxEntries: int, ttl: Option<real>, master: Master)
      ensures View() == State(Cache([], map[]), master)
      ensures keys.config == Config(if maxEntries < 1 then 1 else maxEntries, ttl)
      ensures fresh(keys)
    {
      this.hmac, this.salt, this.encode, this.master := hmac, salt, encode, master;
      keys := new BoundedTTLMap(maxEntries, ttl);
    }

    function View(): State
      reads this, keys
    {
      State(keys.View(), master)
    }

    method FernetFor(scope: Scope, now: real, putNow: real, later: real) returns (key: Bytes)
      requires Wf(keys.View())
      modifies keys
      ensures Wf(keys.View())
      ensures (View(), key)
           == Fernet(keys.config, DerivedBy(hmac, salt, encode), old(View()), scope, now, putNow, later)
    {
      var cached := keys.Get(scope, now);
      if cached.Some? {
        return cached.value;
      }
      var raw := DeriveKey(hmac, salt, encode(master), encode("jobhunter:" + scope + ":v1"), 32);
      key := raw.bytes;
      keys.Put(scope, key, None, putNow, later, NeverPinned());
    }

    method ClearKeyCache()
      modifies keys
      ensures View() == old(View()).(cache := Cache([], map[]))
      ensures Wf(keys.View())
    {
      keys.Clear();
    }
  }
}
